/**
 * The task batcher of pkg/batcher/batcher.go.
 *
 * `taskManager` selects over a queue of tasks and one timer channel; `execute` runs as a goroutine per
 * batch. The queue, the manager, the goroutines and the clock form one state machine, and `Run` gives its
 * state after any event history.
 */
module Batcher {

  import opened Base

  /** One AddTask call: the task and the channel its result goes to. */
  datatype Entry<+T> = Entry(task: T, channel: nat)

  /** An entry the manager has received, and when. */
  datatype Arrival<+T> = Arrival(entry: Entry<T>, time: nat)

  /** What execFunc returned. A task without an entry in `results` gets the zero value, here None. */
  datatype Outcome<T, +R> = Outcome(results: map<T, R>, err: Option<string>)

  datatype Delivery<+T, +R> = Delivery(batch: nat, entry: Entry<T>, result: Option<R>, err: Option<string>)

  /** A batch handed to `execute`, with the arrivals it was made of and the entries not yet answered. */
  datatype Batch<T, +R> = Batch(
    tasks: map<T, seq<nat>>,
    arrivals: seq<Arrival<T>>,
    outcome: Option<Outcome<T, R>>,
    unsent: multiset<Entry<T>>)

  datatype Config = Config(maxEntries: int, maxDelay: nat)

  /** `timer` is the deadline of the current timer channel; a replaced channel can no longer be received from. */
  datatype State<T, R> = State(
    added: seq<Entry<T>>,
    queued: seq<Entry<T>>,
    pending: map<T, seq<nat>>,
    arrivals: seq<Arrival<T>>,
    timer: Option<nat>,
    batches: seq<Batch<T, R>>,
    deliveries: seq<Delivery<T, R>>,
    now: nat)

  datatype Event<T, R> =
    | Add(entry: Entry<T>)
    | Receive
    | TimerFires
    | Tick
    | Finish(index: nat, outcome: Outcome<T, R>)
    | Send(index: nat, sent: Entry<T>)

  function Init<T, R>(): State<T, R> {
    State([], [], map[], [], None, [], [], 0)
  }

  predicate Enabled<T(==), R>(s: State<T, R>, e: Event<T, R>) {
    match e
    case Add(_) => true
    case Receive => s.queued != []
    case TimerFires => s.timer.Some? && s.timer.value <= s.now
    case Tick => true
    case Finish(i, _) => i < |s.batches| && s.batches[i].outcome.None?
    case Send(i, entry) => i < |s.batches| && s.batches[i].outcome.Some? && entry in s.batches[i].unsent
  }

  function Entries<T>(arrivals: seq<Arrival<T>>): (r: seq<Entry<T>>)
    ensures |r| == |arrivals|
  {
    seq(|arrivals|, i requires 0 <= i < |arrivals| => arrivals[i].entry)
  }

  function AddTo<T>(pending: map<T, seq<nat>>, entry: Entry<T>): map<T, seq<nat>> {
    pending[entry.task := (if entry.task in pending then pending[entry.task] else []) + [entry.channel]]
  }

  /** Take the next entry from the queue; a single distinct task (re)starts the timer. */
  function Accept<T, R>(c: Config, s: State<T, R>): State<T, R>
    requires s.queued != []
  {
    var entry := s.queued[0];
    var pending := AddTo(s.pending, entry);
    s.(queued := s.queued[1..], pending := pending,
       arrivals := s.arrivals + [Arrival(entry, s.now)],
       timer := if |pending| == 1 then Some(s.now + c.maxDelay) else s.timer)
  }

  /** `exec`: drop the timer, hand over the pending tasks, start afresh. */
  function StartBatch<T, R>(s: State<T, R>): State<T, R> {
    s.(timer := None, pending := map[], arrivals := [],
       batches := s.batches + [Batch(s.pending, s.arrivals, None, multiset(Entries(s.arrivals)))])
  }

  function Step<T, R>(c: Config, s: State<T, R>, e: Event<T, R>): State<T, R>
    requires Enabled(s, e)
  {
    match e
    case Add(entry) => s.(added := s.added + [entry], queued := s.queued + [entry])
    case Receive =>
      var t := Accept(c, s);
      if |t.pending| == c.maxEntries then StartBatch(t) else t
    case TimerFires => StartBatch(s)
    case Tick => s.(now := s.now + 1)
    case Finish(i, outcome) => s.(batches := s.batches[i := s.batches[i].(outcome := Some(outcome))])
    case Send(i, entry) =>
      var b := s.batches[i];
      var o := b.outcome.value;
      var result := if entry.task in o.results then Some(o.results[entry.task]) else None;
      s.(batches := s.batches[i := b.(unsent := b.unsent - multiset{entry})],
         deliveries := s.deliveries + [Delivery(i, entry, result, o.err)])
  }

  function Run<T, R>(c: Config, es: seq<Event<T, R>>): Option<State<T, R>> {
    if es == [] then Some(Init())
    else
      var before := Run(c, es[..|es| - 1]);
      if before.Some? && Enabled(before.value, es[|es| - 1])
      then Some(Step(c, before.value, es[|es| - 1]))
      else None
  }

  // ----- Invariants -----

  /** The tasks of the arrivals with their channels, as the manager's map groups them. */
  function Group<T>(arrivals: seq<Arrival<T>>): map<T, seq<nat>> {
    if arrivals == [] then map[]
    else AddTo(Group(arrivals[..|arrivals| - 1]), arrivals[|arrivals| - 1].entry)
  }

  /** How often the map sends to this channel for this task. */
  function Copies<T>(tasks: map<T, seq<nat>>, entry: Entry<T>): nat {
    if entry.task in tasks then multiset(tasks[entry.task])[entry.channel] else 0
  }

  /** Grouping loses nothing and invents nothing. */
  lemma {:induction false} GroupKeepsEntries<T>(arrivals: seq<Arrival<T>>, entry: Entry<T>)
    ensures multiset(Entries(arrivals))[entry] == Copies(Group(arrivals), entry)
    ensures forall t :: t in Group(arrivals) ==> Group(arrivals)[t] != []
  {
    if arrivals != [] {
      var prefix, last := arrivals[..|arrivals| - 1], arrivals[|arrivals| - 1].entry;
      GroupKeepsEntries(prefix, entry);
      assert Entries(arrivals) == Entries(prefix) + [last];
    }
  }

  /** All entries of the batches, in the order in which the batches started. */
  function Started<T, R>(batches: seq<Batch<T, R>>): seq<Entry<T>> {
    if batches == [] then []
    else Started(batches[..|batches| - 1]) + Entries(batches[|batches| - 1].arrivals)
  }

  /** The deliveries made by one batch. */
  function SentBy<T(==), R>(deliveries: seq<Delivery<T, R>>, batch: nat): multiset<Entry<T>> {
    if deliveries == [] then multiset{}
    else
      var last := deliveries[|deliveries| - 1];
      SentBy(deliveries[..|deliveries| - 1], batch)
      + (if last.batch == batch then multiset{last.entry} else multiset{})
  }

  /** When the last arrival came that left a single distinct task pending. */
  function LastLoneTime<T(==)>(arrivals: seq<Arrival<T>>): nat
    requires arrivals != []
  {
    var last := |arrivals| - 1;
    if last == 0 || |Group(arrivals)| == 1 then arrivals[last].time else LastLoneTime(arrivals[..last])
  }

  ghost predicate BatchOk<T, R>(b: Batch<T, R>, sent: multiset<Entry<T>>) {
    b.tasks == Group(b.arrivals) && multiset(Entries(b.arrivals)) == b.unsent + sent
  }

  ghost predicate DeliveryOk<T, R>(batches: seq<Batch<T, R>>, d: Delivery<T, R>) {
    && d.batch < |batches|
    && batches[d.batch].outcome.Some?
    && var o := batches[d.batch].outcome.value;
       && d.err == o.err
       && d.result == (if d.entry.task in o.results then Some(o.results[d.entry.task]) else None)
  }

  ghost predicate AnswersOk<T, R>(batches: seq<Batch<T, R>>, deliveries: seq<Delivery<T, R>>) {
    && (forall i :: 0 <= i < |batches| ==> BatchOk(batches[i], SentBy(deliveries, i)))
    && (forall d :: 0 <= d < |deliveries| ==> DeliveryOk(batches, deliveries[d]))
  }

  /** What is kept whatever the configuration. */
  ghost predicate Conserved<T, R>(s: State<T, R>) {
    && s.added == Started(s.batches) + Entries(s.arrivals) + s.queued
    && s.pending == Group(s.arrivals)
    && AnswersOk(s.batches, s.deliveries)
  }

  /** What is kept when at least one entry fits into a batch. */
  ghost predicate Bounded<T, R>(c: Config, s: State<T, R>) {
    && |s.pending| < c.maxEntries
    && (s.timer.Some? <==> s.pending != map[])
    && (s.timer.Some? ==> s.arrivals != [] && s.timer.value == LastLoneTime(s.arrivals) + c.maxDelay)
    && (forall i :: 0 <= i < |s.batches| ==> 1 <= |s.batches[i].tasks| <= c.maxEntries)
  }

  lemma SentByOthers<T, R>(deliveries: seq<Delivery<T, R>>, batch: nat)
    requires forall d :: 0 <= d < |deliveries| ==> deliveries[d].batch < batch
    ensures SentBy(deliveries, batch) == multiset{}
  {
  }

  lemma {:induction false} StartedIgnoresProgress<T, R>(a: seq<Batch<T, R>>, b: seq<Batch<T, R>>)
    requires |a| == |b| && forall i :: 0 <= i < |a| ==> a[i].arrivals == b[i].arrivals
    ensures Started(a) == Started(b)
  {
    if a != [] { StartedIgnoresProgress(a[..|a| - 1], b[..|b| - 1]); }
  }

  lemma AppendKeepsAnswers<T, R>(batches: seq<Batch<T, R>>, deliveries: seq<Delivery<T, R>>, b: Batch<T, R>)
    requires AnswersOk(batches, deliveries) && BatchOk(b, multiset{})
    ensures AnswersOk(batches + [b], deliveries)
  {
    var after := batches + [b];
    forall d | 0 <= d < |deliveries| ensures DeliveryOk(after, deliveries[d]) {
      assert DeliveryOk(batches, deliveries[d]);
    }
    SentByOthers(deliveries, |batches|);
    forall j | 0 <= j < |after| ensures BatchOk(after[j], SentBy(deliveries, j)) {
      if j < |batches| { assert BatchOk(batches[j], SentBy(deliveries, j)); }
    }
  }

  lemma StartBatchConserves<T, R>(s: State<T, R>)
    requires Conserved(s)
    ensures Conserved(StartBatch(s))
  {
    var b: Batch<T, R> := Batch(s.pending, s.arrivals, None, multiset(Entries(s.arrivals)));
    assert BatchOk(b, multiset{});
    AppendKeepsAnswers(s.batches, s.deliveries, b);
    assert StartBatch(s).batches[..|s.batches|] == s.batches;
  }

  /** Moving the head of the queue to the arrivals keeps the order of entries. */
  lemma MoveKeepsOrder<T>(started: seq<Entry<T>>, arrivals: seq<Arrival<T>>, queued: seq<Entry<T>>, time: nat)
    requires queued != []
    ensures var moved := arrivals + [Arrival(queued[0], time)];
            && started + Entries(moved) + queued[1..] == started + Entries(arrivals) + queued
            && Group(moved) == AddTo(Group(arrivals), queued[0])
  {
    var moved := arrivals + [Arrival(queued[0], time)];
    assert moved[..|moved| - 1] == arrivals;
    assert Entries(moved) == Entries(arrivals) + [queued[0]];
    assert queued == [queued[0]] + queued[1..];
  }

  lemma AcceptConserves<T, R>(c: Config, s: State<T, R>)
    requires Conserved(s) && s.queued != []
    ensures Conserved(Accept(c, s))
  {
    MoveKeepsOrder(Started(s.batches), s.arrivals, s.queued, s.now);
  }

  lemma FinishKeepsAnswers<T, R>(
    batches: seq<Batch<T, R>>, deliveries: seq<Delivery<T, R>>, i: nat, outcome: Outcome<T, R>)
    requires AnswersOk(batches, deliveries) && i < |batches| && batches[i].outcome.None?
    ensures AnswersOk(batches[i := batches[i].(outcome := Some(outcome))], deliveries)
  {
    var after := batches[i := batches[i].(outcome := Some(outcome))];
    forall j | 0 <= j < |after| ensures BatchOk(after[j], SentBy(deliveries, j)) {
      assert BatchOk(batches[j], SentBy(deliveries, j));
    }
    forall d | 0 <= d < |deliveries| ensures DeliveryOk(after, deliveries[d]) {
      assert DeliveryOk(batches, deliveries[d]);
    }
  }

  lemma SendKeepsBatch<T, R>(b: Batch<T, R>, sent: multiset<Entry<T>>, entry: Entry<T>)
    requires BatchOk(b, sent) && entry in b.unsent
    ensures BatchOk(b.(unsent := b.unsent - multiset{entry}), sent + multiset{entry})
  {
  }

  lemma SentByOneMore<T, R>(deliveries: seq<Delivery<T, R>>, d: Delivery<T, R>, batch: nat)
    ensures SentBy(deliveries + [d], batch)
         == SentBy(deliveries, batch) + (if d.batch == batch then multiset{d.entry} else multiset{})
  {
    assert (deliveries + [d])[..|deliveries|] == deliveries;
  }

  function AfterSend<T, R>(batches: seq<Batch<T, R>>, d: Delivery<T, R>): seq<Batch<T, R>>
    requires d.batch < |batches|
  {
    var b := batches[d.batch];
    batches[d.batch := b.(unsent := b.unsent - multiset{d.entry})]
  }

  lemma SendKeepsEachBatch<T, R>(batches: seq<Batch<T, R>>, deliveries: seq<Delivery<T, R>>, d: Delivery<T, R>, j: nat)
    requires d.batch < |batches| && j < |batches| && d.entry in batches[d.batch].unsent
    requires BatchOk(batches[j], SentBy(deliveries, j))
    ensures BatchOk(AfterSend(batches, d)[j], SentBy(deliveries + [d], j))
  {
    SentByOneMore(deliveries, d, j);
    if j == d.batch {
      SendKeepsBatch(batches[j], SentBy(deliveries, j), d.entry);
    } else {
      assert SentBy(deliveries + [d], j) == SentBy(deliveries, j);
    }
  }

  lemma SendKeepsDelivery<T, R>(batches: seq<Batch<T, R>>, d: Delivery<T, R>, other: Delivery<T, R>)
    requires d.batch < |batches| && DeliveryOk(batches, other)
    ensures DeliveryOk(AfterSend(batches, d), other)
  {
  }

  lemma SendKeepsAnswers<T, R>(batches: seq<Batch<T, R>>, deliveries: seq<Delivery<T, R>>, d: Delivery<T, R>)
    requires AnswersOk(batches, deliveries) && DeliveryOk(batches, d) && d.entry in batches[d.batch].unsent
    ensures AnswersOk(AfterSend(batches, d), deliveries + [d])
  {
    var after, sent := AfterSend(batches, d), deliveries + [d];
    forall j | 0 <= j < |after| ensures BatchOk(after[j], SentBy(sent, j)) {
      SendKeepsEachBatch(batches, deliveries, d, j);
    }
    forall k | 0 <= k < |sent| ensures DeliveryOk(after, sent[k]) {
      SendKeepsDelivery(batches, d, sent[k]);
    }
  }

  lemma ProgressConserves<T, R>(c: Config, s: State<T, R>, e: Event<T, R>)
    requires Conserved(s) && Enabled(s, e) && (e.Finish? || e.Send?)
    ensures Conserved(Step(c, s, e))
  {
    var t := Step(c, s, e);
    StartedIgnoresProgress(s.batches, t.batches);
    if e.Finish? {
      FinishKeepsAnswers(s.batches, s.deliveries, e.index, e.outcome);
    } else {
      SendKeepsAnswers(s.batches, s.deliveries, t.deliveries[|s.deliveries|]);
    }
  }

  lemma QueueConserves<T, R>(c: Config, s: State<T, R>, e: Event<T, R>)
    requires Conserved(s) && (e.Add? || e.Tick?)
    ensures Conserved(Step(c, s, e))
  {
    if e.Add? {
      var before := Started(s.batches) + Entries(s.arrivals);
      assert before + (s.queued + [e.entry]) == before + s.queued + [e.entry];
    }
  }

  lemma StepConserves<T, R>(c: Config, s: State<T, R>, e: Event<T, R>)
    requires Conserved(s) && Enabled(s, e)
    ensures Conserved(Step(c, s, e))
  {
    if e.Receive? {
      AcceptConserves(c, s);
      StartBatchConserves(Accept(c, s));
    } else if e.TimerFires? {
      StartBatchConserves(s);
    } else if e.Add? || e.Tick? {
      QueueConserves(c, s, e);
    } else {
      ProgressConserves(c, s, e);
    }
  }

  lemma {:induction false} RunConserves<T, R>(c: Config, es: seq<Event<T, R>>)
    requires Run(c, es).Some?
    ensures Conserved(Run(c, es).value)
  {
    if es != [] {
      RunConserves(c, es[..|es| - 1]);
      StepConserves(c, Run(c, es[..|es| - 1]).value, es[|es| - 1]);
    }
  }

  lemma AcceptCounts<T, R>(c: Config, s: State<T, R>)
    requires s.queued != []
    ensures var t := Accept(c, s);
            && |s.pending| <= |t.pending| <= |s.pending| + 1
            && t.pending != map[]
            && (s.pending == map[] ==> |t.pending| == 1)
  {
    var t := Accept(c, s);
    assert t.pending.Keys == s.pending.Keys + {s.queued[0].task};
    assert |s.pending.Keys| <= |t.pending.Keys|;
    assert s.pending == map[] ==> t.pending.Keys == {s.queued[0].task};
  }

  lemma ReceiveBounded<T, R>(c: Config, s: State<T, R>)
    requires c.maxEntries >= 1 && Conserved(s) && Bounded(c, s) && s.queued != []
    ensures Bounded(c, Step(c, s, Receive))
  {
    var t := Accept(c, s);
    AcceptConserves(c, s);
    AcceptCounts(c, s);
    assert t.arrivals[..|t.arrivals| - 1] == s.arrivals;
  }

  lemma StepBounded<T, R>(c: Config, s: State<T, R>, e: Event<T, R>)
    requires c.maxEntries >= 1 && Conserved(s) && Bounded(c, s) && Enabled(s, e)
    ensures Bounded(c, Step(c, s, e))
  {
    if e.Receive? { ReceiveBounded(c, s); }
  }

  /**
   * With room for an entry: fewer than maxEntries tasks are pending, the timer runs exactly while something
   * is pending, batches hold 1 to maxEntries tasks, and the deadline is maxDelay after the last arrival that
   * left one distinct task pending, so never that of an earlier batch.
   */
  lemma {:induction false} TimerAndSizeAreKept<T, R>(c: Config, es: seq<Event<T, R>>)
    requires c.maxEntries >= 1 && Run(c, es).Some?
    ensures Bounded(c, Run(c, es).value)
  {
    if es != [] {
      TimerAndSizeAreKept(c, es[..|es| - 1]);
      RunConserves(c, es[..|es| - 1]);
      StepBounded(c, Run(c, es[..|es| - 1]).value, es[|es| - 1]);
    }
  }

  // ----- Theorems over all runs -----

  /**
   * Every added entry is in exactly one place, and they stay in order: the entries of the batches started
   * so far, then the pending ones, then the queued ones are together the entries added.
   */
  lemma EntriesAreConserved<T, R>(c: Config, es: seq<Event<T, R>>)
    requires Run(c, es).Some?
    ensures var s := Run(c, es).value;
            && s.added == Started(s.batches) + Entries(s.arrivals) + s.queued
            && (forall entry :: multiset(Entries(s.arrivals))[entry] == Copies(s.pending, entry))
  {
    RunConserves(c, es);
    var s := Run(c, es).value;
    forall entry ensures multiset(Entries(s.arrivals))[entry] == Copies(s.pending, entry) {
      GroupKeepsEntries(s.arrivals, entry);
    }
  }

  /**
   * A batch answers each of its entries once: at any time what it has sent and what it still has to send
   * are together the entries of its map. A batch with nothing left to send has answered them all.
   */
  lemma BatchDeliversExactly<T, R>(c: Config, es: seq<Event<T, R>>, i: nat, entry: Entry<T>)
    requires Run(c, es).Some? && i < |Run(c, es).value.batches|
    ensures var s := Run(c, es).value;
            var b := s.batches[i];
            b.unsent[entry] + SentBy(s.deliveries, i)[entry] == Copies(b.tasks, entry)
  {
    RunConserves(c, es);
    var s := Run(c, es).value;
    assert BatchOk(s.batches[i], SentBy(s.deliveries, i));
    GroupKeepsEntries(s.batches[i].arrivals, entry);
    assert (s.batches[i].unsent + SentBy(s.deliveries, i))[entry]
        == s.batches[i].unsent[entry] + SentBy(s.deliveries, i)[entry];
  }

  /** Each answer carries the result for its own task and the error of the execution that contained it. */
  lemma DeliveriesAreOwn<T, R>(c: Config, es: seq<Event<T, R>>, d: nat)
    requires Run(c, es).Some? && d < |Run(c, es).value.deliveries|
    ensures var s := Run(c, es).value; DeliveryOk(s.batches, s.deliveries[d])
  {
    RunConserves(c, es);
  }

  // ----- Whose outcome a delivery carries -----

  predicate HasOutcome<T, R>(s: State<T, R>, i: nat) {
    i < |s.batches| && s.batches[i].outcome.Some?
  }

  ghost predicate OutcomeIs<T, R>(s: State<T, R>, i: nat, outcome: Outcome<T, R>) {
    i < |s.batches| && s.batches[i].outcome == Some(outcome)
  }

  /** An outcome appears when its batch finishes, and then stays as it is. */
  lemma StepOutcome<T, R>(c: Config, s: State<T, R>, e: Event<T, R>, i: nat, outcome: Outcome<T, R>)
    requires Enabled(s, e)
    ensures HasOutcome(s, i) ==> !(e.Finish? && e.index == i) && HasOutcome(Step(c, s, e), i)
    ensures OutcomeIs(s, i, outcome) ==> OutcomeIs(Step(c, s, e), i, outcome)
    ensures !HasOutcome(s, i) ==> (HasOutcome(Step(c, s, e), i) <==> e.Finish? && e.index == i)
    ensures e.Finish? && e.index == i ==> OutcomeIs(Step(c, s, e), i, e.outcome)
  {
  }

  lemma RunSplits<T, R>(c: Config, es: seq<Event<T, R>>) returns (before: State<T, R>, e: Event<T, R>)
    requires Run(c, es).Some? && es != []
    ensures e == es[|es| - 1] && Run(c, es[..|es| - 1]) == Some(before)
    ensures Enabled(before, e) && Run(c, es) == Some(Step(c, before, e))
  {
    before, e := Run(c, es[..|es| - 1]).value, es[|es| - 1];
  }

  /** The outcome of a batch is what execFunc returned in the event of the run in which the batch finished. */
  lemma {:induction false} OutcomesAreReturned<T, R>(c: Config, es: seq<Event<T, R>>, i: nat) returns (k: nat)
    requires Run(c, es).Some? && HasOutcome(Run(c, es).value, i)
    ensures k < |es| && es[k].Finish? && es[k].index == i && OutcomeIs(Run(c, es).value, i, es[k].outcome)
  {
    var before, e := RunSplits(c, es);
    var last := Run(c, es).value.batches[i].outcome.value;
    if HasOutcome(before, i) {
      k := OutcomesAreReturned(c, es[..|es| - 1], i);
      StepOutcome(c, before, e, i, es[k].outcome);
    } else {
      k := |es| - 1;
      StepOutcome(c, before, e, i, last);
    }
  }

  lemma {:induction false} FinishedHasOutcome<T, R>(c: Config, es: seq<Event<T, R>>, k: nat)
    requires Run(c, es).Some? && k < |es| && es[k].Finish?
    ensures HasOutcome(Run(c, es).value, es[k].index)
  {
    var before, e := RunSplits(c, es);
    if k < |es| - 1 { FinishedHasOutcome(c, es[..|es| - 1], k); }
    StepOutcome(c, before, e, es[k].index, es[k].outcome);
  }

  /** A batch finishes once. */
  lemma {:induction false} FinishesOnce<T, R>(c: Config, es: seq<Event<T, R>>, j: nat, k: nat)
    requires Run(c, es).Some? && j <= k < |es|
    requires es[j].Finish? && es[k].Finish? && es[j].index == es[k].index
    ensures j == k
  {
    if j < k {
      var before, e := RunSplits(c, es);
      if k < |es| - 1 {
        FinishesOnce(c, es[..|es| - 1], j, k);
      } else {
        FinishedHasOutcome(c, es[..|es| - 1], j);
        StepOutcome(c, before, e, es[j].index, es[j].outcome);
      }
    }
  }

  /**
   * In every run, a delivery comes with the one event in which execFunc returned for its batch: its error is the
   * error returned there, and its result is what was returned there for its own task.
   */
  lemma DeliveriesComeFromFinish<T, R>(c: Config, es: seq<Event<T, R>>, d: nat) returns (k: nat)
    requires Run(c, es).Some? && d < |Run(c, es).value.deliveries|
    ensures var got := Run(c, es).value.deliveries[d];
            && k < |es| && es[k].Finish? && es[k].index == got.batch
            && got.err == es[k].outcome.err
            && (got.entry.task in es[k].outcome.results ==> got.result == Some(es[k].outcome.results[got.entry.task]))
            && (got.entry.task !in es[k].outcome.results ==> got.result == None)
  {
    DeliveriesAreOwn(c, es, d);
    k := OutcomesAreReturned(c, es, Run(c, es).value.deliveries[d].batch);
  }

  // ----- When a batch starts -----

  /** The distinct tasks among these arrivals. */
  function Tasks<T>(arrivals: seq<Arrival<T>>): set<T> {
    set i | 0 <= i < |arrivals| :: arrivals[i].entry.task
  }

  lemma GroupCounts<T>(arrivals: seq<Arrival<T>>)
    ensures Group(arrivals).Keys == Tasks(arrivals) && |Group(arrivals)| == |Tasks(arrivals)|
  {
    forall task ensures task in Group(arrivals) <==> task in Tasks(arrivals) { GroupHas(arrivals, task); }
    assert Group(arrivals).Keys == Tasks(arrivals);
  }

  /**
   * After every run, an event starts a batch exactly when it is the timer's, which is not before maxDelay after
   * the last arrival that left one task pending, or the receipt of an entry that makes the tasks maxEntries. The
   * batch is made of everything pending.
   */
  lemma BatchStartsIff<T, R>(c: Config, es: seq<Event<T, R>>, e: Event<T, R>)
    requires c.maxEntries >= 1 && Run(c, es).Some? && Enabled(Run(c, es).value, e)
    ensures var s := Run(c, es).value;
            var t := Step(c, s, e);
            var all := if e.Receive? then s.arrivals + [Arrival(s.queued[0], s.now)] else s.arrivals;
            && (|t.batches| > |s.batches| <==> e.TimerFires? || (e.Receive? && |Tasks(all)| == c.maxEntries))
            && (|t.batches| > |s.batches| ==>
                  |t.batches| == |s.batches| + 1 && t.batches[|s.batches|].arrivals == all && t.arrivals == [] && t.timer == None)
            && (e.TimerFires? ==> s.arrivals != [] && s.now >= LastLoneTime(s.arrivals) + c.maxDelay)
  {
    var s := Run(c, es).value;
    RunConserves(c, es);
    TimerAndSizeAreKept(c, es);
    if e.Receive? {
      AcceptConserves(c, s);
      GroupCounts(Accept(c, s).arrivals);
    }
  }

  // ----- Where each entry is -----

  /** A position in the queue or among the pending arrivals, the unsent entries of a batch, or a delivery. */
  datatype Place =
    | InQueue(position: nat)
    | InPending(position: nat)
    | Unsent(batch: nat)
    | Delivered(position: nat)

  ghost predicate At<T, R>(s: State<T, R>, place: Place, entry: Entry<T>) {
    match place
    case InQueue(i) => i < |s.queued| && s.queued[i] == entry
    case InPending(i) => i < |s.arrivals| && s.arrivals[i].entry == entry
    case Unsent(i) => i < |s.batches| && entry in s.batches[i].unsent
    case Delivered(d) => d < |s.deliveries| && s.deliveries[d].entry == entry
  }

  ghost predicate Distinct<T>(entries: seq<Entry<T>>) {
    forall i, j :: 0 <= i < j < |entries| ==> entries[i] != entries[j]
  }

  lemma DistinctParts<T>(a: seq<Entry<T>>, b: seq<Entry<T>>)
    requires Distinct(a + b)
    ensures Distinct(a) && Distinct(b) && forall i, j :: 0 <= i < |a| && 0 <= j < |b| ==> a[i] != b[j]
  {
    var all := a + b;
    assert forall i :: 0 <= i < |a| ==> all[i] == a[i];
    assert forall j :: 0 <= j < |b| ==> all[|a| + j] == b[j];
  }

  /** Started entries of distinct ones lie in one batch each. */
  lemma {:induction false} StartedInOneBatch<T, R>(batches: seq<Batch<T, R>>, i: nat, j: nat, entry: Entry<T>)
    requires Distinct(Started(batches)) && i < |batches| && j < |batches|
    requires entry in Entries(batches[i].arrivals) && entry in Entries(batches[j].arrivals)
    ensures i == j && entry in Started(batches) && Distinct(Entries(batches[i].arrivals))
  {
    var last := |batches| - 1;
    var prefix, tail := batches[..last], Entries(batches[last].arrivals);
    DistinctParts(Started(prefix), tail);
    if i < last { StartedInOneBatch(prefix, i, i, entry); }
    if j < last { StartedInOneBatch(prefix, j, j, entry); }
    if i < last && j < last { StartedInOneBatch(prefix, i, j, entry); }
  }

  lemma {:induction false} StartedIsInSomeBatch<T, R>(batches: seq<Batch<T, R>>, entry: Entry<T>) returns (i: nat)
    requires entry in Started(batches)
    ensures i < |batches| && entry in Entries(batches[i].arrivals)
  {
    var last := |batches| - 1;
    if entry in Entries(batches[last].arrivals) {
      i := last;
    } else {
      i := StartedIsInSomeBatch(batches[..last], entry);
    }
  }

  lemma {:induction false} DistinctCount<T>(entries: seq<Entry<T>>, entry: Entry<T>)
    requires Distinct(entries)
    ensures multiset(entries)[entry] == if entry in entries then 1 else 0
  {
    if entries != [] {
      var last := |entries| - 1;
      assert entries == entries[..last] + [entries[last]];
      DistinctCount(entries[..last], entry);
    }
  }

  lemma {:induction false} SentByHasDelivery<T, R>(deliveries: seq<Delivery<T, R>>, batch: nat, entry: Entry<T>) returns (d: nat)
    requires entry in SentBy(deliveries, batch)
    ensures d < |deliveries| && deliveries[d].batch == batch && deliveries[d].entry == entry
  {
    var last := |deliveries| - 1;
    if deliveries[last].batch == batch && deliveries[last].entry == entry {
      d := last;
    } else {
      d := SentByHasDelivery(deliveries[..last], batch, entry);
    }
  }

  /** Deliveries of an entry are counted, each of them. */
  lemma {:induction false} SentByCounts<T, R>(deliveries: seq<Delivery<T, R>>, d1: nat, d2: nat)
    requires d1 <= d2 < |deliveries|
    requires deliveries[d1].batch == deliveries[d2].batch && deliveries[d1].entry == deliveries[d2].entry
    ensures SentBy(deliveries, deliveries[d1].batch)[deliveries[d1].entry] >= if d1 == d2 then 1 else 2
  {
    var last := |deliveries| - 1;
    if d2 < last {
      SentByCounts(deliveries[..last], d1, d2);
    } else if d1 < last {
      SentByCounts(deliveries[..last], d1, d1);
    }
  }

  /** A started entry is unsent or sent by its own batch, one of the two and once. */
  lemma BatchHoldsOnce<T, R>(s: State<T, R>, i: nat, entry: Entry<T>)
    requires Conserved(s) && i < |s.batches| && Distinct(Started(s.batches))
    ensures s.batches[i].unsent[entry] + SentBy(s.deliveries, i)[entry]
         == if entry in Entries(s.batches[i].arrivals) then 1 else 0
  {
    var held := Entries(s.batches[i].arrivals);
    assert BatchOk(s.batches[i], SentBy(s.deliveries, i));
    assert multiset(held)[entry] == s.batches[i].unsent[entry] + SentBy(s.deliveries, i)[entry];
    if entry in held {
      StartedInOneBatch(s.batches, i, i, entry);
      DistinctCount(held, entry);
    }
  }

  /** The batch a started place belongs to. */
  function BatchOf<T, R>(s: State<T, R>, place: Place): nat
    requires place.Delivered? ==> place.position < |s.deliveries|
  {
    if place.Delivered? then s.deliveries[place.position].batch
    else if place.Unsent? then place.batch else 0
  }

  lemma StartedPlaceIsInBatch<T, R>(s: State<T, R>, place: Place, entry: Entry<T>)
    requires Conserved(s) && Distinct(Started(s.batches)) && At(s, place, entry) && (place.Unsent? || place.Delivered?)
    ensures var i := BatchOf(s, place);
            && i < |s.batches| && entry in Entries(s.batches[i].arrivals) && entry in Started(s.batches)
            && (place.Delivered? ==> SentBy(s.deliveries, i)[entry] >= 1)
  {
    var i := BatchOf(s, place);
    if place.Delivered? {
      assert DeliveryOk(s.batches, s.deliveries[place.position]);
      SentByCounts(s.deliveries, place.position, place.position);
    }
    BatchHoldsOnce(s, i, entry);
    StartedInOneBatch(s.batches, i, i, entry);
  }

  lemma StartedPlaceIsUnique<T, R>(s: State<T, R>, p: Place, q: Place, entry: Entry<T>)
    requires Conserved(s) && Distinct(Started(s.batches)) && At(s, p, entry) && At(s, q, entry)
    requires (p.Unsent? || p.Delivered?) && (q.Unsent? || q.Delivered?)
    ensures p == q
  {
    StartedPlaceIsInBatch(s, p, entry);
    StartedPlaceIsInBatch(s, q, entry);
    var i := BatchOf(s, p);
    StartedInOneBatch(s.batches, i, BatchOf(s, q), entry);
    BatchHoldsOnce(s, i, entry);
    if p.Delivered? && q.Delivered? {
      var d1, d2 := p.position, q.position;
      SentByCounts(s.deliveries, if d1 <= d2 then d1 else d2, if d1 <= d2 then d2 else d1);
    }
  }

  lemma StartedHasPlace<T, R>(s: State<T, R>, entry: Entry<T>) returns (place: Place)
    requires Conserved(s) && Distinct(Started(s.batches)) && entry in Started(s.batches)
    ensures At(s, place, entry)
  {
    var i := StartedIsInSomeBatch(s.batches, entry);
    BatchHoldsOnce(s, i, entry);
    if entry in s.batches[i].unsent {
      place := Unsent(i);
    } else {
      var d := SentByHasDelivery(s.deliveries, i, entry);
      place := Delivered(d);
    }
  }

  lemma AddedParts<T, R>(s: State<T, R>)
    requires Conserved(s) && Distinct(s.added)
    ensures var started, pending := Started(s.batches), Entries(s.arrivals);
            && Distinct(started) && Distinct(pending) && Distinct(s.queued)
            && (forall entry :: entry in started ==> entry !in pending && entry !in s.queued)
            && (forall entry :: entry in pending ==> entry !in s.queued)
  {
    var started, pending := Started(s.batches), Entries(s.arrivals);
    DistinctParts(started + pending, s.queued);
    DistinctParts(started, pending);
    forall entry | entry in started + pending ensures entry !in s.queued {
      var i :| 0 <= i < |started + pending| && (started + pending)[i] == entry;
    }
  }

  lemma PlaceIsUnique<T, R>(s: State<T, R>, p: Place, q: Place, entry: Entry<T>)
    requires Conserved(s) && Distinct(s.added) && At(s, p, entry) && At(s, q, entry)
    ensures p == q
  {
    AddedParts(s);
    PlaceTells(s, p, entry);
    PlaceTells(s, q, entry);
    if (p.Unsent? || p.Delivered?) && (q.Unsent? || q.Delivered?) { StartedPlaceIsUnique(s, p, q, entry); }
    assert p.InPending? && q.InPending? ==>
      Entries(s.arrivals)[p.position] == Entries(s.arrivals)[q.position];
  }

  /** Which of the three parts of the added entries a place is about. */
  lemma PlaceTells<T, R>(s: State<T, R>, p: Place, entry: Entry<T>)
    requires Conserved(s) && Distinct(Started(s.batches)) && At(s, p, entry)
    ensures p.InQueue? ==> entry in s.queued
    ensures p.InPending? ==> entry in Entries(s.arrivals)
    ensures p.Unsent? || p.Delivered? ==> entry in Started(s.batches)
  {
    match p {
      case InQueue(_) =>
      case InPending(i) => assert Entries(s.arrivals)[i] == entry;
      case _ => StartedPlaceIsInBatch(s, p, entry);
    }
  }

  /**
   * If no two AddTask calls are alike, and with a channel each they are not, every entry is in exactly one
   * place, across all batches: in the queue, pending, still to be sent by one batch, or delivered once.
   */
  lemma ExactlyOnePlace<T, R>(c: Config, es: seq<Event<T, R>>, entry: Entry<T>) returns (place: Place)
    requires Run(c, es).Some? && Distinct(Run(c, es).value.added) && entry in Run(c, es).value.added
    ensures At(Run(c, es).value, place, entry)
    ensures forall other :: At(Run(c, es).value, other, entry) ==> other == place
  {
    RunConserves(c, es);
    var s := Run(c, es).value;
    AddedParts(s);
    if entry in s.queued {
      var i :| 0 <= i < |s.queued| && s.queued[i] == entry;
      place := InQueue(i);
    } else if entry in Entries(s.arrivals) {
      var i :| 0 <= i < |s.arrivals| && Entries(s.arrivals)[i] == entry;
      place := InPending(i);
    } else {
      place := StartedHasPlace(s, entry);
    }
    forall other | At(s, other, entry) ensures other == place { PlaceIsUnique(s, other, place, entry); }
  }

  // ----- Everybody is answered in the end -----

  /** The timer runs exactly while something is pending, whatever maxEntries is. */
  ghost predicate TimerRuns<T, R>(s: State<T, R>) {
    s.timer.Some? <==> s.pending != map[]
  }

  lemma StepKeepsTimer<T, R>(c: Config, s: State<T, R>, e: Event<T, R>)
    requires Enabled(s, e) && TimerRuns(s)
    ensures TimerRuns(Step(c, s, e))
  {
    if e.Receive? {
      AcceptCounts(c, s);
      assert s.pending != map[] || |Accept(c, s).pending| == 1;
    }
  }

  lemma {:induction false} TimerRunsWhilePending<T, R>(c: Config, es: seq<Event<T, R>>)
    requires Run(c, es).Some?
    ensures TimerRuns(Run(c, es).value)
  {
    if es != [] {
      TimerRunsWhilePending(c, es[..|es| - 1]);
      StepKeepsTimer(c, Run(c, es[..|es| - 1]).value, es[|es| - 1]);
    }
  }

  /** The state after so many ticks of the clock. */
  function Later<T, R>(s: State<T, R>, ticks: nat): State<T, R> {
    s.(now := s.now + ticks)
  }

  /** The timer may fire, now or once enough time has passed. */
  ghost predicate TimerWillFire<T, R>(s: State<T, R>) {
    exists ticks: nat :: Enabled(Later(s, ticks), Event<T, R>.TimerFires)
  }

  /** The batch has finished and has an answer left to send. */
  predicate CanSend<T, R>(s: State<T, R>, i: nat) {
    i < |s.batches| && s.batches[i].outcome.Some? && |s.batches[i].unsent| > 0
  }

  /** The system can move on its own: receive, start a batch, finish one or send an answer. */
  ghost predicate CanProgress<T, R>(s: State<T, R>, outcome: Outcome<T, R>) {
    || Enabled(s, Event<T, R>.Receive)
    || TimerWillFire(s)
    || (exists i :: Enabled(s, Finish(i, outcome)))
    || (exists i :: CanSend(s, i))
  }

  lemma UndeliveredPlaceProgresses<T, R>(s: State<T, R>, place: Place, entry: Entry<T>, outcome: Outcome<T, R>)
    requires At(s, place, entry) && !place.Delivered? && TimerRuns(s) && (s.arrivals != [] ==> s.pending != map[])
    ensures CanProgress(s, outcome)
  {
    match place {
      case InQueue(_) => assert Enabled(s, Event<T, R>.Receive);
      case InPending(_) => assert Enabled(Later(s, s.timer.value), Event<T, R>.TimerFires);
      case Unsent(i) =>
        if s.batches[i].outcome.None? {
          assert Enabled(s, Finish(i, outcome));
        } else {
          assert Enabled(s, Event<T, R>.Send(i, entry)) && CanSend(s, i);
        }
    }
  }

  lemma ArrivalsArePending<T, R>(s: State<T, R>)
    requires Conserved(s)
    ensures s.arrivals != [] ==> s.pending != map[]
  {
    if s.arrivals != [] { GroupHas(s.arrivals, s.arrivals[0].entry.task); }
  }

  /** An entry that has not been delivered leaves the system able to move on its own. */
  lemma UndeliveredCanProgress<T, R>(c: Config, es: seq<Event<T, R>>, entry: Entry<T>, outcome: Outcome<T, R>)
    requires Run(c, es).Some? && Distinct(Run(c, es).value.added) && entry in Run(c, es).value.added
    requires forall d :: 0 <= d < |Run(c, es).value.deliveries| ==> Run(c, es).value.deliveries[d].entry != entry
    ensures CanProgress(Run(c, es).value, outcome)
  {
    RunConserves(c, es);
    TimerRunsWhilePending(c, es);
    ArrivalsArePending(Run(c, es).value);
    var place := ExactlyOnePlace(c, es, entry);
    UndeliveredPlaceProgresses(Run(c, es).value, place, entry, outcome);
  }

  // ----- A duplicate of a lone task restarts the timer -----

  /** A task, then the same task again after every tick of the clock, each time with a channel of its own. */
  function Duplicates<T, R>(task: T, rounds: nat): seq<Event<T, R>> {
    if rounds == 0 then [Add(Entry(task, 0)), Receive]
    else Duplicates(task, rounds - 1) + [Tick, Add(Entry(task, rounds)), Receive]
  }

  ghost predicate NotDue<T, R>(s: State<T, R>) {
    !Enabled(s, Event<T, R>.TimerFires)
  }

  /** The history is possible and the timer could not have fired anywhere in it. */
  ghost predicate NeverDue<T, R>(c: Config, es: seq<Event<T, R>>) {
    && Run(c, es).Some?
    && NotDue(Run(c, es).value)
    && (es == [] || NeverDue(c, es[..|es| - 1]))
  }

  lemma NeverDueGrows<T, R>(c: Config, es: seq<Event<T, R>>, e: Event<T, R>)
    requires NeverDue(c, es) && Enabled(Run(c, es).value, e) && NotDue(Step(c, Run(c, es).value, e))
    ensures NeverDue(c, es + [e]) && Run(c, es + [e]) == Some(Step(c, Run(c, es).value, e))
  {
    assert (es + [e])[..|es|] == es;
  }

  /** Only `task` is pending, first received at time 0, and the timer was just restarted. */
  ghost predicate Postponed<T, R>(c: Config, s: State<T, R>, task: T) {
    && s.batches == [] && s.queued == []
    && s.arrivals != [] && s.arrivals[0] == Arrival(Entry(task, 0), 0)
    && s.pending.Keys == {task}
    && s.timer == Some(s.now + c.maxDelay)
  }

  lemma ReceiveCopy<T, R>(c: Config, s: State<T, R>, task: T)
    requires c.maxEntries != 1 && c.maxDelay >= 2
    requires |s.queued| == 1 && s.queued[0].task == task && s.batches == [] && s.pending.Keys <= {task}
    requires if s.arrivals == [] then s.now == 0 && s.queued[0].channel == 0
             else s.arrivals[0] == Arrival(Entry(task, 0), 0)
    ensures Postponed(c, Step(c, s, Receive), task) && NotDue(Step(c, s, Receive))
    ensures Step(c, s, Receive).now == s.now
  {
    var t := Accept(c, s);
    assert t.pending.Keys == {task};
    assert |t.pending.Keys| == 1;
  }

  /** The next copy is added and received: the first one of all, or after a tick. */
  lemma NextCopy<T, R>(c: Config, es: seq<Event<T, R>>, task: T, channel: nat)
    requires c.maxEntries != 1 && c.maxDelay >= 2 && NeverDue(c, es)
    requires var s := Run(c, es).value;
             && s.queued == [] && s.batches == [] && s.pending.Keys <= {task}
             && if s.arrivals == [] then s.now == 0 && channel == 0 else s.arrivals[0] == Arrival(Entry(task, 0), 0)
    ensures var next := es + [Add(Entry(task, channel))] + [Receive];
            && NeverDue(c, next)
            && Postponed(c, Run(c, next).value, task) && Run(c, next).value.now == Run(c, es).value.now
  {
    var entry := Entry(task, channel);
    NeverDueGrows(c, es, Add(entry));
    var added := es + [Add(entry)];
    ReceiveCopy(c, Run(c, added).value, task);
    NeverDueGrows(c, added, Receive);
  }

  /**
   * maxDelay does not bound how long an entry waits: if identical tasks keep coming, a batch that is not
   * full stays pending for any number of ticks without its timer ever becoming due.
   */
  lemma {:induction false} DuplicatesPostpone<T, R>(c: Config, task: T, rounds: nat)
    requires c.maxEntries != 1 && c.maxDelay >= 2
    ensures NeverDue<T, R>(c, Duplicates(task, rounds))
    ensures var run := Run<T, R>(c, Duplicates(task, rounds));
            run.Some? && Postponed(c, run.value, task) && run.value.now == rounds
  {
    var es: seq<Event<T, R>> := [];
    if rounds > 0 {
      DuplicatesPostpone<T, R>(c, task, rounds - 1);
      es := Duplicates(task, rounds - 1);
      NeverDueGrows(c, es, Tick);
      es := es + [Tick];
    }
    NextCopy(c, es, task, rounds);
    assert es + [Add(Entry(task, rounds))] + [Receive] == Duplicates(task, rounds);
  }

  // ----- When maxDelay is counted from the first arrival -----

  predicate OneTask<T(==)>(arrivals: seq<Arrival<T>>) {
    forall i :: 0 <= i < |arrivals| ==> arrivals[i].entry.task == arrivals[0].entry.task
  }

  lemma {:induction false} GroupHas<T>(arrivals: seq<Arrival<T>>, task: T)
    ensures task in Group(arrivals) <==> exists i :: 0 <= i < |arrivals| && arrivals[i].entry.task == task
  {
    if arrivals != [] {
      var last := |arrivals| - 1;
      GroupHas(arrivals[..last], task);
      assert forall i :: 0 <= i < last ==> arrivals[..last][i] == arrivals[i];
    }
  }

  lemma OneTaskIffOneGroup<T>(arrivals: seq<Arrival<T>>)
    requires arrivals != []
    ensures |Group(arrivals)| == 1 <==> OneTask(arrivals)
  {
    var tasks, first := Group(arrivals).Keys, arrivals[0].entry.task;
    GroupHas(arrivals, first);
    if OneTask(arrivals) {
      forall task | task in tasks ensures task == first { GroupHas(arrivals, task); }
      assert tasks == {first};
    }
    if |tasks| == 1 {
      forall i | 0 <= i < |arrivals| ensures arrivals[i].entry.task == first {
        GroupHas(arrivals, arrivals[i].entry.task);
        assert |tasks - {first}| == 0;
      }
    }
  }

  predicate InOrder<T>(arrivals: seq<Arrival<T>>) {
    forall i, j :: 0 <= i <= j < |arrivals| ==> arrivals[i].time <= arrivals[j].time
  }

  lemma {:induction false} ArrivalsAreInOrder<T, R>(c: Config, es: seq<Event<T, R>>)
    requires Run(c, es).Some?
    ensures var s := Run(c, es).value;
            InOrder(s.arrivals) && forall i :: 0 <= i < |s.arrivals| ==> s.arrivals[i].time <= s.now
  {
    if es != [] { ArrivalsAreInOrder(c, es[..|es| - 1]); }
  }

  /** Every arrival before a second task came, while the first was alone, came at the time of the first. */
  ghost predicate NoLateDuplicate<T>(arrivals: seq<Arrival<T>>) {
    forall k :: 0 <= k < |arrivals| && OneTask(arrivals[..k + 1]) ==> arrivals[k].time == arrivals[0].time
  }

  lemma NoLateDuplicateAlone<T>(arrivals: seq<Arrival<T>>)
    requires arrivals != [] && InOrder(arrivals) && OneTask(arrivals)
    ensures arrivals[|arrivals| - 1].time == arrivals[0].time <==> NoLateDuplicate(arrivals)
  {
    assert arrivals[..|arrivals|] == arrivals;
  }

  lemma NoLateDuplicateGrows<T>(arrivals: seq<Arrival<T>>)
    requires |arrivals| > 1 && !OneTask(arrivals)
    ensures NoLateDuplicate(arrivals) <==> NoLateDuplicate(arrivals[..|arrivals| - 1])
  {
    var last := |arrivals| - 1;
    var prefix := arrivals[..last];
    assert arrivals[..last + 1] == arrivals;
    forall k | 0 <= k < last ensures prefix[..k + 1] == arrivals[..k + 1] && prefix[k] == arrivals[k] {
    }
  }

  lemma {:induction false} LastLoneIsFirstIff<T>(arrivals: seq<Arrival<T>>)
    requires arrivals != [] && InOrder(arrivals)
    ensures LastLoneTime(arrivals) == arrivals[0].time <==> NoLateDuplicate(arrivals)
  {
    OneTaskIffOneGroup(arrivals);
    if OneTask(arrivals) {
      NoLateDuplicateAlone(arrivals);
    } else {
      NoLateDuplicateGrows(arrivals);
      LastLoneIsFirstIff(arrivals[..|arrivals| - 1]);
    }
  }

  /**
   * The pending batch is due maxDelay after its first arrival exactly when no duplicate of a lone pending
   * task came later than that.
   */
  lemma DueFromFirstArrivalIff<T, R>(c: Config, es: seq<Event<T, R>>)
    requires c.maxEntries >= 1 && Run(c, es).Some? && Run(c, es).value.timer.Some?
    ensures var s := Run(c, es).value;
            && s.arrivals != []
            && (s.timer.value == s.arrivals[0].time + c.maxDelay <==> NoLateDuplicate(s.arrivals))
  {
    TimerAndSizeAreKept(c, es);
    ArrivalsAreInOrder(c, es);
    LastLoneIsFirstIff(Run(c, es).value.arrivals);
  }

  // ----- The code itself -----

  /** The select loop's variables, with the whole system's state as their specification. */
  class TaskManager<T(==), R> {
    const config: Config
    var pendingTasks: map<T, seq<nat>>
    var timerCh: Option<nat>
    ghost var system: State<T, R>

    ghost predicate Valid()
      reads this
    {
      pendingTasks == system.pending && timerCh == system.timer
    }

    constructor (config: Config)
      ensures Valid() && this.config == config && system == Init()
    {
      this.config := config;
      pendingTasks, timerCh := map[], None;
      system := Init();
    }

    /** The task case. `started` is the batch handed to a new goroutine, if the batch is now full. */
    method ReceiveTask(t: Entry<T>, now: nat) returns (started: Option<map<T, seq<nat>>>)
      requires Valid() && system.queued != [] && system.queued[0] == t && system.now == now
      modifies this
      ensures Valid() && system == Step(config, old(system), Event<T, R>.Receive)
      ensures started.None? ==> system.batches == old(system.batches)
      ensures started.Some? ==>
                && |system.batches| == |old(system.batches)| + 1
                && system.batches[|old(system.batches)|].tasks == started.value
                && pendingTasks == map[] && timerCh == None
    {
      if t.task !in pendingTasks { pendingTasks := pendingTasks[t.task := []]; }
      pendingTasks := pendingTasks[t.task := pendingTasks[t.task] + [t.channel]];
      assert pendingTasks == AddTo(system.pending, t);
      if |pendingTasks| == 1 { timerCh := Some(now + config.maxDelay); }
      started := None;
      if |pendingTasks| == config.maxEntries {
        started := Some(pendingTasks);
        timerCh, pendingTasks := None, map[];
      }
      system := Step(config, system, Event<T, R>.Receive);
    }

    /** The timer case. */
    method ReceiveTimer() returns (started: map<T, seq<nat>>)
      requires Valid() && Enabled(system, Event<T, R>.TimerFires)
      modifies this
      ensures Valid() && system == Step(config, old(system), Event<T, R>.TimerFires)
      ensures started == old(pendingTasks) && pendingTasks == map[] && timerCh == None
    {
      started := pendingTasks;
      timerCh, pendingTasks := None, map[];
      system := Step(config, system, Event<T, R>.TimerFires);
    }
  }

  function Lookup<T, R>(o: Outcome<T, R>, task: T): Option<R> {
    if task in o.results then Some(o.results[task]) else None
  }

  /** One answer for each of a task's channels, in order. */
  method SendAll<T(==), R>(index: nat, task: T, channels: seq<nat>, o: Outcome<T, R>) returns (sent: seq<Delivery<T, R>>)
    ensures |sent| == |channels|
    ensures forall i :: 0 <= i < |sent| ==> sent[i] == Delivery(index, Entry(task, channels[i]), Lookup(o, task), o.err)
  {
    sent := [];
    for i := 0 to |channels|
      invariant |sent| == i
      invariant forall j :: 0 <= j < i ==> sent[j] == Delivery(index, Entry(task, channels[j]), Lookup(o, task), o.err)
    {
      sent := sent + [Delivery(index, Entry(task, channels[i]), Lookup(o, task), o.err)];
    }
  }

  lemma {:induction false} SentByAppend<T, R>(
    a: seq<Delivery<T, R>>, b: seq<Delivery<T, R>>, index: nat, entry: Entry<T>)
    ensures SentBy(a + b, index)[entry] == SentBy(a, index)[entry] + SentBy(b, index)[entry]
  {
    if b == [] {
      assert a + b == a;
    } else {
      var rest := b[..|b| - 1];
      SentByAppend(a, rest, index, entry);
      assert (a + b)[..|a + b| - 1] == a + rest;
    }
  }

  lemma {:induction false} SentByOneTask<T, R>(
    sent: seq<Delivery<T, R>>, index: nat, task: T, channels: seq<nat>, entry: Entry<T>)
    requires |sent| == |channels|
    requires forall i :: 0 <= i < |sent| ==> sent[i].batch == index && sent[i].entry == Entry(task, channels[i])
    ensures SentBy(sent, index)[entry] == if entry.task == task then multiset(channels)[entry.channel] else 0
  {
    if sent != [] {
      var last := |sent| - 1;
      SentByOneTask(sent[..last], index, task, channels[..last], entry);
      assert channels == channels[..last] + [channels[last]];
    }
  }

  /** The tasks of a map, each once, in whatever order the map yields them. */
  method ListTasks<T(==)>(tasks: map<T, seq<nat>>) returns (batch: seq<T>)
    ensures |batch| == |tasks| && (forall t :: t in batch <==> t in tasks)
    ensures forall i, j :: 0 <= i < j < |batch| ==> batch[i] != batch[j]
  {
    batch := [];
    var left := tasks.Keys;
    while left != {}
      invariant left <= tasks.Keys && |batch| + |left| == |tasks.Keys|
      invariant forall i :: 0 <= i < |batch| ==> batch[i] in tasks && batch[i] !in left
      invariant forall i, j :: 0 <= i < j < |batch| ==> batch[i] != batch[j]
      invariant forall t :: t in tasks ==> t in left || t in batch
      decreases |left|
    {
      var task :| task in left;
      batch := batch + [task];
      left := left - {task};
    }
  }

  /** What has been sent for the first `n` tasks of the batch: all of their entries and no others. */
  ghost predicate SentFor<T(!new), R>(sent: seq<Delivery<T, R>>, index: nat, tasks: map<T, seq<nat>>, batch: seq<T>, n: nat)
    requires n <= |batch|
  {
    forall entry :: SentBy(sent, index)[entry] == if entry.task in batch[..n] then Copies(tasks, entry) else 0
  }

  lemma SentForNext<T(!new), R>(
    sent: seq<Delivery<T, R>>, answers: seq<Delivery<T, R>>, index: nat, tasks: map<T, seq<nat>>, batch: seq<T>, n: nat)
    requires n < |batch| && batch[n] in tasks && batch[n] !in batch[..n]
    requires SentFor(sent, index, tasks, batch, n)
    requires |answers| == |tasks[batch[n]]|
    requires forall i :: 0 <= i < |answers| ==>
               answers[i].batch == index && answers[i].entry == Entry(batch[n], tasks[batch[n]][i])
    ensures SentFor(sent + answers, index, tasks, batch, n + 1)
  {
    assert batch[..n + 1] == batch[..n] + [batch[n]];
    forall entry ensures SentBy(sent + answers, index)[entry]
      == if entry.task in batch[..n + 1] then Copies(tasks, entry) else 0
    {
      SentForNextEntry(sent, answers, index, tasks, batch[n], entry);
    }
  }

  lemma SentForNextEntry<T, R>(
    sent: seq<Delivery<T, R>>, answers: seq<Delivery<T, R>>, index: nat, tasks: map<T, seq<nat>>, task: T, entry: Entry<T>)
    requires task in tasks && |answers| == |tasks[task]|
    requires forall i :: 0 <= i < |answers| ==>
               answers[i].batch == index && answers[i].entry == Entry(task, tasks[task][i])
    ensures SentBy(sent + answers, index)[entry]
         == SentBy(sent, index)[entry] + if entry.task == task then Copies(tasks, entry) else 0
  {
    SentByAppend(sent, answers, index, entry);
    SentByOneTask(answers, index, task, tasks[task], entry);
  }

  /**
   * `execute`: run the batch once, with each task listed once, and answer every channel. What is sent is
   * exactly the map's entries, each with its own task's result and the batch's error.
   */
  method Execute<T(==, !new), R>(index: nat, tasks: map<T, seq<nat>>, exec: seq<T> -> Outcome<T, R>)
    returns (batch: seq<T>, sent: seq<Delivery<T, R>>)
    ensures |batch| == |tasks| && (forall t :: t in batch <==> t in tasks)
    ensures forall entry :: SentBy(sent, index)[entry] == Copies(tasks, entry)
    ensures forall i :: 0 <= i < |sent| ==>
              && sent[i].batch == index
              && sent[i].result == Lookup(exec(batch), sent[i].entry.task)
              && sent[i].err == exec(batch).err
  {
    batch := ListTasks(tasks);
    var o := exec(batch);
    sent := [];
    for i := 0 to |batch|
      invariant SentFor(sent, index, tasks, batch, i)
      invariant forall j :: 0 <= j < |sent| ==>
                  sent[j].batch == index && sent[j].result == Lookup(o, sent[j].entry.task) && sent[j].err == o.err
    {
      assert batch[i] in tasks;
      var answers := SendAll(index, batch[i], tasks[batch[i]], o);
      SentForNext(sent, answers, index, tasks, batch, i);
      sent := sent + answers;
    }
    assert batch[..|batch|] == batch;
  }
}
