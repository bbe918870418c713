/**
 * The request coalescer of pkg/coalescer/coalescer.go.
 *
 * `coalescerThread` is a select loop over an input channel and a timer channel. The loop, the
 * goroutines it spawns and the runtime timers are modelled together as a state machine: one event is
 * one receive, one finished execution or one send. `Run` gives the state after any event history, and
 * the theorems below hold after every history.
 */
module Coalescer {

  import opened Base

  /** The merge callback returns a value even when it also returns an error. */
  datatype Merged<+I> = Merged(value: I, err: Option<string>)

  /** `zero` is Go's zero input; `W` is everything outside the process an execution may observe. */
  datatype Config<!I, !W, R> = Config(
    zero: I,
    merge: (I, I) -> Merged<I>,
    execute: (string, I, W) -> Result<R, string>)

  /** One call of Coalesce: the result channel it made and the input it sent. */
  datatype Caller<+I> = Caller(channel: nat, input: I)

  datatype Arrival<+I> = Arrival(key: string, input: I)

  datatype Pending<+I> = Pending(input: I, callers: seq<Caller<I>>)

  /** A spawned goroutine. `sent` counts the channels already served. */
  datatype Execution<+I, +R> = Execution(
    key: string,
    input: I,
    callers: seq<Caller<I>>,
    outcome: Option<Result<R, string>>,
    sent: nat)

  /** Who sent a result: the loop after a failed merge, or execution `index` to its caller `slot`. */
  datatype Source = Rejected | FromExecution(index: nat, slot: nat)

  datatype Delivery<+R> = Delivery(channel: nat, result: Result<R, string>, source: Source)

  /**
   * `timers` holds one element per timer that was started and whose message the loop has not yet
   * received. Channels are numbered in the order in which the loop receives them; `next` bounds them.
   */
  datatype State<I, R> = State(
    pending: map<string, Pending<I>>,
    timers: multiset<string>,
    executions: seq<Execution<I, R>>,
    deliveries: seq<Delivery<R>>,
    arrivals: map<nat, Arrival<I>>,
    next: nat)

  datatype Event<I, W> =
    | Input(key: string, channel: nat, input: I)
    | Timer(key: string)
    | Finish(index: nat, world: W)
    | Send(index: nat)

  function Init<I, R>(): State<I, R> {
    State(map[], multiset{}, [], [], map[], 0)
  }

  predicate Enabled<I, W, R>(s: State<I, R>, e: Event<I, W>) {
    match e
    case Input(_, channel, _) => channel >= s.next
    case Timer(key) => key in s.timers
    case Finish(index, _) => index < |s.executions| && s.executions[index].outcome.None?
    case Send(index) =>
      && index < |s.executions|
      && s.executions[index].outcome.Some?
      && s.executions[index].sent < |s.executions[index].callers|
  }

  /** True when the loop answers this input at once with the merge error. */
  predicate IsRejected<I, W, R>(c: Config<I, W, R>, s: State<I, R>, e: Event<I, W>) {
    e.Input? && e.key in s.pending && c.merge(e.input, s.pending[e.key].input).err.Some?
  }

  function Step<I, W, R>(c: Config<I, W, R>, s: State<I, R>, e: Event<I, W>): State<I, R>
    requires Enabled(s, e)
  {
    match e
    case Input(key, channel, input) =>
      var t := s.(arrivals := s.arrivals[channel := Arrival(key, input)], next := channel + 1);
      if key in s.pending then
        var p := s.pending[key];
        var m := c.merge(input, p.input);
        if m.err.None? then
          t.(pending := s.pending[key := Pending(m.value, p.callers + [Caller(channel, input)])])
        else
          t.(deliveries := s.deliveries + [Delivery(channel, Err(m.err.value), Rejected)])
      else
        t.(pending := s.pending[key := Pending(input, [Caller(channel, input)])],
           timers := s.timers + multiset{key})
    case Timer(key) =>
      var p := if key in s.pending then s.pending[key] else Pending(c.zero, []);
      s.(pending := s.pending - {key},
         timers := s.timers - multiset{key},
         executions := s.executions + [Execution(key, p.input, p.callers, None, 0)])
    case Finish(index, world) =>
      var x := s.executions[index];
      s.(executions := s.executions[index := x.(outcome := Some(c.execute(x.key, x.input, world)))])
    case Send(index) =>
      var x := s.executions[index];
      s.(executions := s.executions[index := x.(sent := x.sent + 1)],
         deliveries := s.deliveries
           + [Delivery(x.callers[x.sent].channel, x.outcome.value, FromExecution(index, x.sent))])
  }

  /** The state after a history, or None if some event of it could not have happened. */
  function Run<I, W, R>(c: Config<I, W, R>, es: seq<Event<I, W>>): Option<State<I, R>> {
    if es == [] then Some(Init())
    else
      var before := Run(c, es[..|es| - 1]);
      if before.Some? && Enabled(before.value, es[|es| - 1])
      then Some(Step(c, before.value, es[|es| - 1]))
      else None
  }

  // ----- What is executed: the arrival-order fold of the accepted inputs -----

  function Inputs<I>(callers: seq<Caller<I>>): (r: seq<I>)
    ensures |r| == |callers|
  {
    seq(|callers|, i requires 0 <= i < |callers| => callers[i].input)
  }

  function Fold<I>(merge: (I, I) -> Merged<I>, inputs: seq<I>): I
    requires inputs != []
  {
    var last := |inputs| - 1;
    if last == 0 then inputs[0] else merge(inputs[last], Fold(merge, inputs[..last])).value
  }

  /** Every input after the first merged without an error into the fold of those before it. */
  ghost predicate AllMerged<I>(merge: (I, I) -> Merged<I>, inputs: seq<I>)
    requires inputs != []
  {
    var last := |inputs| - 1;
    last == 0 || (AllMerged(merge, inputs[..last])
                  && merge(inputs[last], Fold(merge, inputs[..last])).err.None?)
  }

  /** `input` is the fold of these callers' inputs, in arrival order and without a conflict. */
  ghost predicate Coalesced<I>(merge: (I, I) -> Merged<I>, input: I, callers: seq<Caller<I>>) {
    && callers != []
    && AllMerged(merge, Inputs(callers))
    && input == Fold(merge, Inputs(callers))
    && forall i, j :: 0 <= i < j < |callers| ==> callers[i].channel < callers[j].channel
  }

  lemma CoalescedGrows<I>(merge: (I, I) -> Merged<I>, input: I, callers: seq<Caller<I>>, caller: Caller<I>)
    requires Coalesced(merge, input, callers)
    requires merge(caller.input, input).err.None?
    requires forall i :: 0 <= i < |callers| ==> callers[i].channel < caller.channel
    ensures Coalesced(merge, merge(caller.input, input).value, callers + [caller])
  {
    var grown := Inputs(callers + [caller]);
    assert grown[..|callers|] == Inputs(callers);
  }

  // ----- Where each caller is -----

  datatype Place =
    | InPending(key: string, slot: nat)
    | InExecution(index: nat, slot: nat)
    | Delivered(position: nat)

  /** The caller's channel occupies this place. An execution releases a channel once it has sent to it. */
  ghost predicate At<I, R>(s: State<I, R>, place: Place, channel: nat) {
    match place
    case InPending(key, slot) =>
      && key in s.pending
      && slot < |s.pending[key].callers|
      && s.pending[key].callers[slot].channel == channel
    case InExecution(index, slot) =>
      && index < |s.executions|
      && s.executions[index].sent <= slot < |s.executions[index].callers|
      && s.executions[index].callers[slot].channel == channel
    case Delivered(position) =>
      && position < |s.deliveries|
      && s.deliveries[position].channel == channel
  }

  /** `places` is exactly the relation between arrived channels and occupied places. */
  ghost predicate Tracks<I, R>(s: State<I, R>, places: map<nat, Place>) {
    && places.Keys == s.arrivals.Keys
    && (forall channel :: channel in places ==> At(s, places[channel], channel))
    && (forall place, channel :: At(s, place, channel) ==> channel in places && places[channel] == place)
  }

  ghost predicate TimersMatch<I, R>(s: State<I, R>) {
    && (forall key :: key in s.pending ==> s.timers[key] == 1)
    && (forall key :: key in s.timers ==> key in s.pending)
  }

  /** A merged input under `key` is the fold of callers that did arrive with that key and input. */
  ghost predicate EntryMatches<I>(
    merge: (I, I) -> Merged<I>, arrivals: map<nat, Arrival<I>>,
    key: string, input: I, callers: seq<Caller<I>>)
  {
    && Coalesced(merge, input, callers)
    && forall i :: 0 <= i < |callers| ==>
         && callers[i].channel in arrivals
         && arrivals[callers[i].channel] == Arrival(key, callers[i].input)
  }

  ghost predicate ExecutionMatches<I, R>(
    merge: (I, I) -> Merged<I>, arrivals: map<nat, Arrival<I>>, x: Execution<I, R>)
  {
    && EntryMatches(merge, arrivals, x.key, x.input, x.callers)
    && x.sent <= |x.callers|
    && (x.sent > 0 ==> x.outcome.Some?)
  }

  ghost predicate ChannelsNumbered<I, R>(s: State<I, R>) {
    forall channel :: channel in s.arrivals ==> channel < s.next
  }

  ghost predicate ContentsMatch<I, W, R>(c: Config<I, W, R>, s: State<I, R>) {
    && ChannelsNumbered(s)
    && (forall key :: key in s.pending ==>
          EntryMatches(c.merge, s.arrivals, key, s.pending[key].input, s.pending[key].callers))
    && (forall i :: 0 <= i < |s.executions| ==> ExecutionMatches(c.merge, s.arrivals, s.executions[i]))
  }

  /** Each result was sent by the loop as an error, or by the execution that holds its caller. */
  ghost predicate DeliveriesMatch<I, R>(s: State<I, R>) {
    forall d :: 0 <= d < |s.deliveries| ==> ResultMatches(s, s.deliveries[d])
  }

  ghost predicate ResultMatches<I, R>(s: State<I, R>, d: Delivery<R>) {
    match d.source
    case Rejected => d.result.Err?
    case FromExecution(index, slot) =>
      && index < |s.executions|
      && slot < s.executions[index].sent <= |s.executions[index].callers|
      && s.executions[index].callers[slot].channel == d.channel
      && s.executions[index].outcome == Some(d.result)
  }

  ghost predicate Inv<I, W, R>(c: Config<I, W, R>, s: State<I, R>) {
    && TimersMatch(s)
    && ContentsMatch(c, s)
    && DeliveriesMatch(s)
    && exists places :: Tracks(s, places)
  }

  /** The callers of a key whose timer fires move from the pending map into the new execution. */
  function PlaceAfterTimer<I, R>(s: State<I, R>, key: string, place: Place): Place {
    if place.InPending? && place.key == key then InExecution(|s.executions|, place.slot) else place
  }

  function PlacesAfter<I, W, R>(
    c: Config<I, W, R>, s: State<I, R>, e: Event<I, W>, places: map<nat, Place>): map<nat, Place>
    requires Enabled(s, e)
  {
    match e
    case Input(key, channel, input) =>
      places[channel :=
        if IsRejected(c, s, e) then Delivered(|s.deliveries|)
        else InPending(key, if key in s.pending then |s.pending[key].callers| else 0)]
    case Timer(key) =>
      map channel: nat | channel in places :: PlaceAfterTimer(s, key, places[channel])
    case Finish(_, _) => places
    case Send(index) =>
      var x := s.executions[index];
      places[x.callers[x.sent].channel := Delivered(|s.deliveries|)]
  }

  lemma InputTracks<I, W, R>(c: Config<I, W, R>, s: State<I, R>, e: Event<I, W>, places: map<nat, Place>)
    requires e.Input?
    requires Enabled(s, e) && ChannelsNumbered(s) && Tracks(s, places)
    ensures Tracks(Step(c, s, e), PlacesAfter(c, s, e, places))
  {
    var t, after := Step(c, s, e), PlacesAfter(c, s, e, places);
    forall ch | ch in after ensures At(t, after[ch], ch) {
      if ch != e.channel { assert At(s, places[ch], ch); }
    }
    forall place, ch: nat | At(t, place, ch) ensures ch in after && after[ch] == place {
      if place != after[e.channel] { assert At(s, place, ch); }
    }
  }

  lemma TimerTracks<I, W, R>(c: Config<I, W, R>, s: State<I, R>, e: Event<I, W>, places: map<nat, Place>)
    requires e.Timer?
    requires Enabled(s, e) && ChannelsNumbered(s) && Tracks(s, places)
    ensures Tracks(Step(c, s, e), PlacesAfter(c, s, e, places))
  {
    var t, after := Step(c, s, e), PlacesAfter(c, s, e, places);
    forall ch | ch in after ensures At(t, after[ch], ch) {
      assert At(s, places[ch], ch);
    }
    forall place, ch: nat | At(t, place, ch) ensures ch in after && after[ch] == place {
      var moved := place.InExecution? && place.index == |s.executions|;
      assert At(s, if moved then InPending(e.key, place.slot) else place, ch);
    }
  }

  lemma ExecutionTracks<I, W, R>(c: Config<I, W, R>, s: State<I, R>, e: Event<I, W>, places: map<nat, Place>)
    requires e.Finish? || e.Send?
    requires Enabled(s, e) && ChannelsNumbered(s) && Tracks(s, places)
    ensures Tracks(Step(c, s, e), PlacesAfter(c, s, e, places))
  {
    var t, after := Step(c, s, e), PlacesAfter(c, s, e, places);
    var x := s.executions[e.index];
    assert e.Send? ==> At(s, InExecution(e.index, x.sent), x.callers[x.sent].channel);
    forall ch | ch in after ensures At(t, after[ch], ch) {
      if after[ch] == places[ch] { assert At(s, places[ch], ch); }
    }
    forall place, ch: nat | At(t, place, ch) ensures ch in after && after[ch] == place {
      if place != Delivered(|s.deliveries|) { assert At(s, place, ch); }
    }
  }

  lemma StepTimers<I, W, R>(c: Config<I, W, R>, s: State<I, R>, e: Event<I, W>)
    requires Enabled(s, e) && TimersMatch(s)
    ensures TimersMatch(Step(c, s, e))
  {
  }

  /** A later arrival does not disturb an entry. */
  lemma EntryKept<I>(
    merge: (I, I) -> Merged<I>, arrivals: map<nat, Arrival<I>>, channel: nat, arrival: Arrival<I>,
    key: string, input: I, callers: seq<Caller<I>>)
    requires EntryMatches(merge, arrivals, key, input, callers) && channel !in arrivals
    ensures EntryMatches(merge, arrivals[channel := arrival], key, input, callers)
  {
  }

  lemma StepPending<I, W, R>(c: Config<I, W, R>, s: State<I, R>, e: Event<I, W>, key: string)
    requires Enabled(s, e) && ContentsMatch(c, s) && key in Step(c, s, e).pending
    ensures var t := Step(c, s, e);
            EntryMatches(c.merge, t.arrivals, key, t.pending[key].input, t.pending[key].callers)
  {
    if e.Input? {
      if key in s.pending {
        var p := s.pending[key];
        EntryKept(c.merge, s.arrivals, e.channel, Arrival(e.key, e.input), key, p.input, p.callers);
        if key == e.key && !IsRejected(c, s, e) {
          CoalescedGrows(c.merge, p.input, p.callers, Caller(e.channel, e.input));
        }
      } else {
        assert Inputs([Caller(e.channel, e.input)]) == [e.input];
      }
    }
  }

  /** Finishing an execution, or serving one of its callers, leaves what it is made of. */
  lemma ProgressMatches<I, R>(
    merge: (I, I) -> Merged<I>, arrivals: map<nat, Arrival<I>>, x: Execution<I, R>, y: Execution<I, R>)
    requires ExecutionMatches(merge, arrivals, x)
    requires y.key == x.key && y.input == x.input && y.callers == x.callers
    requires y.sent <= |y.callers| && (y.sent > 0 ==> y.outcome.Some?)
    ensures ExecutionMatches(merge, arrivals, y)
  {
  }

  lemma StepOldExecution<I, W, R>(c: Config<I, W, R>, s: State<I, R>, e: Event<I, W>, i: nat)
    requires Enabled(s, e) && ChannelsNumbered(s) && i < |s.executions|
    requires ExecutionMatches(c.merge, s.arrivals, s.executions[i])
    ensures i < |Step(c, s, e).executions|
    ensures ExecutionMatches(c.merge, Step(c, s, e).arrivals, Step(c, s, e).executions[i])
  {
    var x := s.executions[i];
    if e.Input? {
      EntryKept(c.merge, s.arrivals, e.channel, Arrival(e.key, e.input), x.key, x.input, x.callers);
    } else {
      ProgressMatches(c.merge, s.arrivals, x, Step(c, s, e).executions[i]);
    }
  }

  lemma StepNewExecution<I, W, R>(c: Config<I, W, R>, s: State<I, R>, e: Event<I, W>)
    requires Enabled(s, e) && e.Timer? && e.key in s.pending
    requires EntryMatches(c.merge, s.arrivals, e.key, s.pending[e.key].input, s.pending[e.key].callers)
    ensures ExecutionMatches(c.merge, Step(c, s, e).arrivals, Step(c, s, e).executions[|s.executions|])
  {
  }

  lemma StepExecution<I, W, R>(c: Config<I, W, R>, s: State<I, R>, e: Event<I, W>, i: nat)
    requires Enabled(s, e) && ContentsMatch(c, s) && TimersMatch(s) && i < |Step(c, s, e).executions|
    ensures ExecutionMatches(c.merge, Step(c, s, e).arrivals, Step(c, s, e).executions[i])
  {
    if i < |s.executions| { StepOldExecution(c, s, e, i); } else { StepNewExecution(c, s, e); }
  }

  lemma StepNumbers<I, W, R>(c: Config<I, W, R>, s: State<I, R>, e: Event<I, W>)
    requires Enabled(s, e) && ChannelsNumbered(s)
    ensures ChannelsNumbered(Step(c, s, e))
  {
  }

  lemma StepContents<I, W, R>(c: Config<I, W, R>, s: State<I, R>, e: Event<I, W>)
    requires Enabled(s, e) && ContentsMatch(c, s) && TimersMatch(s)
    ensures ContentsMatch(c, Step(c, s, e))
  {
    var t := Step(c, s, e);
    StepNumbers(c, s, e);
    forall key | key in t.pending
      ensures EntryMatches(c.merge, t.arrivals, key, t.pending[key].input, t.pending[key].callers)
    {
      StepPending(c, s, e, key);
    }
    forall i | 0 <= i < |t.executions| ensures ExecutionMatches(c.merge, t.arrivals, t.executions[i]) {
      StepExecution(c, s, e, i);
    }
  }

  lemma StepDeliveries<I, W, R>(c: Config<I, W, R>, s: State<I, R>, e: Event<I, W>)
    requires Enabled(s, e) && DeliveriesMatch(s) && ContentsMatch(c, s)
    ensures DeliveriesMatch(Step(c, s, e))
  {
    var t := Step(c, s, e);
    forall d | 0 <= d < |t.deliveries| ensures ResultMatches(t, t.deliveries[d]) {
      if d < |s.deliveries| {
        assert ResultMatches(s, s.deliveries[d]);
      }
    }
  }

  /** Every reachable state satisfies the invariant. */
  lemma {:induction false} RunKeepsInvariant<I, W, R>(c: Config<I, W, R>, es: seq<Event<I, W>>)
    requires Run(c, es).Some?
    ensures Inv(c, Run(c, es).value)
  {
    if es == [] {
      var s: State<I, R> := Init();
      assert Tracks(s, map[]);
    } else {
      var before := Run(c, es[..|es| - 1]).value;
      var e := es[|es| - 1];
      RunKeepsInvariant(c, es[..|es| - 1]);
      var places :| Tracks(before, places);
      if e.Input? { InputTracks(c, before, e, places); }
      else if e.Timer? { TimerTracks(c, before, e, places); }
      else { ExecutionTracks(c, before, e, places); }
      StepTimers(c, before, e);
      StepContents(c, before, e);
      StepDeliveries(c, before, e);
    }
  }

  // ----- Theorems over all runs -----

  /**
   * A key has exactly one outstanding timer if it is pending and none otherwise, so a timer message
   * always finds a pending entry.
   */
  lemma OneTimerPerPendingKey<I, W, R>(c: Config<I, W, R>, es: seq<Event<I, W>>, key: string)
    requires Run(c, es).Some?
    ensures var s := Run(c, es).value;
            && s.timers[key] == (if key in s.pending then 1 else 0)
            && (Enabled(s, Event<I, W>.Timer(key)) ==> key in s.pending && s.pending[key].callers != [])
  {
    RunKeepsInvariant(c, es);
  }

  /** A caller is in exactly one place: pending, held by one execution, or answered once. */
  lemma ExactlyOnePlace<I, W, R>(c: Config<I, W, R>, es: seq<Event<I, W>>, channel: nat) returns (place: Place)
    requires Run(c, es).Some? && channel in Run(c, es).value.arrivals
    ensures var s := Run(c, es).value;
            At(s, place, channel) && forall other :: At(s, other, channel) ==> other == place
  {
    RunKeepsInvariant(c, es);
    var places :| Tracks(Run(c, es).value, places);
    place := places[channel];
  }

  /** No caller is ever answered twice, and nobody is answered who did not call. */
  lemma AnsweredAtMostOnce<I, W, R>(c: Config<I, W, R>, es: seq<Event<I, W>>, d1: nat, d2: nat)
    requires Run(c, es).Some?
    requires var n := |Run(c, es).value.deliveries|; d1 < n && d2 < n
    requires var ds := Run(c, es).value.deliveries; ds[d1].channel == ds[d2].channel
    ensures d1 == d2 && Run(c, es).value.deliveries[d1].channel in Run(c, es).value.arrivals
  {
    RunKeepsInvariant(c, es);
    var s := Run(c, es).value;
    var places :| Tracks(s, places);
    assert At(s, Delivered(d1), s.deliveries[d1].channel);
    assert At(s, Delivered(d2), s.deliveries[d2].channel);
  }

  /**
   * A successful caller shares one execution of its own key: the input of that execution is the
   * arrival-order fold of the accepted inputs, the caller's own among them, and its outcome is the
   * result the caller got.
   */
  lemma SuccessComesFromSharedExecution<I, W, R>(c: Config<I, W, R>, es: seq<Event<I, W>>, d: nat)
    requires Run(c, es).Some? && d < |Run(c, es).value.deliveries|
    requires Run(c, es).value.deliveries[d].result.Ok?
    ensures var s := Run(c, es).value;
            var got := s.deliveries[d];
            && got.source.FromExecution?
            && got.source.index < |s.executions|
            && var x := s.executions[got.source.index];
               && x.outcome == Some(got.result)
               && Coalesced(c.merge, x.input, x.callers)
               && got.source.slot < |x.callers|
               && got.channel in s.arrivals
               && s.arrivals[got.channel] == Arrival(x.key, x.callers[got.source.slot].input)
  {
    RunKeepsInvariant(c, es);
    var s := Run(c, es).value;
    assert ResultMatches(s, s.deliveries[d]);
  }

  predicate HasOutcome<I, R>(s: State<I, R>, i: nat) {
    i < |s.executions| && s.executions[i].outcome.Some?
  }

  /** The outcome of execution `i` is what the execute callback makes of its input in this world. */
  ghost predicate OutcomeFrom<I, W, R>(c: Config<I, W, R>, s: State<I, R>, i: nat, world: W) {
    && i < |s.executions|
    && var x := s.executions[i]; x.outcome == Some(c.execute(x.key, x.input, world))
  }

  /** An outcome appears when its execution finishes, and then stays as it is. */
  lemma StepOutcome<I, W, R>(c: Config<I, W, R>, s: State<I, R>, e: Event<I, W>, i: nat, world: W)
    requires Enabled(s, e)
    ensures HasOutcome(s, i) ==> !(e.Finish? && e.index == i) && HasOutcome(Step(c, s, e), i)
    ensures HasOutcome(s, i) && OutcomeFrom(c, s, i, world) ==> OutcomeFrom(c, Step(c, s, e), i, world)
    ensures !HasOutcome(s, i) ==> (HasOutcome(Step(c, s, e), i) <==> e.Finish? && e.index == i)
    ensures e.Finish? && e.index == i ==> OutcomeFrom(c, Step(c, s, e), i, e.world)
  {
  }

  lemma RunSplits<I, W, R>(c: Config<I, W, R>, es: seq<Event<I, W>>) returns (before: State<I, R>, e: Event<I, W>)
    requires Run(c, es).Some? && es != []
    ensures e == es[|es| - 1] && Run(c, es[..|es| - 1]) == Some(before)
    ensures Enabled(before, e) && Run(c, es) == Some(Step(c, before, e))
  {
    before, e := Run(c, es[..|es| - 1]).value, es[|es| - 1];
  }

  /**
   * Every stored outcome was computed by the execute callback on the folded input, from what the outside
   * world answered in the event of the history in which this execution finished.
   */
  lemma {:induction false} OutcomesAreExecuted<I, W, R>(c: Config<I, W, R>, es: seq<Event<I, W>>, i: nat)
    returns (k: nat)
    requires Run(c, es).Some? && HasOutcome(Run(c, es).value, i)
    ensures k < |es| && es[k].Finish? && es[k].index == i && OutcomeFrom(c, Run(c, es).value, i, es[k].world)
  {
    var before, e := RunSplits(c, es);
    if HasOutcome(before, i) {
      k := OutcomesAreExecuted(c, es[..|es| - 1], i);
      StepOutcome(c, before, e, i, es[k].world);
    } else {
      k := |es| - 1;
      StepOutcomeOfNew(c, before, e, i);
    }
  }

  lemma StepOutcomeOfNew<I, W, R>(c: Config<I, W, R>, s: State<I, R>, e: Event<I, W>, i: nat)
    requires Enabled(s, e) && !HasOutcome(s, i) && HasOutcome(Step(c, s, e), i)
    ensures e.Finish? && e.index == i && OutcomeFrom(c, Step(c, s, e), i, e.world)
  {
  }

  /** An execution that finished somewhere in the history has an outcome. */
  lemma {:induction false} FinishedHasOutcome<I, W, R>(c: Config<I, W, R>, es: seq<Event<I, W>>, k: nat)
    requires Run(c, es).Some? && k < |es| && es[k].Finish?
    ensures HasOutcome(Run(c, es).value, es[k].index)
  {
    var before, e := RunSplits(c, es);
    if k < |es| - 1 { FinishedHasOutcome(c, es[..|es| - 1], k); }
    StepOutcome(c, before, e, es[k].index, es[k].world);
  }

  /** An execution finishes once, so the event its outcome comes from is the only one it could come from. */
  lemma {:induction false} FinishesOnce<I, W, R>(c: Config<I, W, R>, es: seq<Event<I, W>>, j: nat, k: nat)
    requires Run(c, es).Some? && j <= k < |es|
    requires es[j].Finish? && es[k].Finish? && es[j].index == es[k].index
    ensures j == k
  {
    if j < k {
      var before, e := RunSplits(c, es);
      var prefix := es[..|es| - 1];
      if k < |es| - 1 {
        FinishesOnce(c, prefix, j, k);
      } else {
        FinishedHasOutcome(c, prefix, j);
        StepOutcome(c, before, e, es[j].index, es[j].world);
      }
    }
  }

  // ----- Who is rejected -----

  /** What the receipt of an input does, `folded` being what is pending under its key, if anything is. */
  ghost predicate AnswersOrAccepts<I, W, R>(
    c: Config<I, W, R>, s: State<I, R>, e: Event<I, W>, t: State<I, R>, folded: Option<I>)
    requires e.Input?
  {
    if folded.Some? && c.merge(e.input, folded.value).err.Some? then
      && t.pending == s.pending && t.timers == s.timers
      && t.deliveries
         == s.deliveries + [Delivery(e.channel, Err(c.merge(e.input, folded.value).err.value), Rejected)]
    else
      && t.deliveries == s.deliveries
      && e.key in t.pending
      && t.pending[e.key].callers
         == (if e.key in s.pending then s.pending[e.key].callers else []) + [Caller(e.channel, e.input)]
  }

  lemma StepAnswersOrAccepts<I, W, R>(c: Config<I, W, R>, s: State<I, R>, e: Event<I, W>)
    requires e.Input? && Enabled(s, e)
    ensures AnswersOrAccepts(c, s, e, Step(c, s, e), if e.key in s.pending then Some(s.pending[e.key].input) else None)
  {
  }

  /** The fold of the inputs that were accepted under the key and wait there, in arrival order. */
  ghost function FoldOfPending<I, W, R>(c: Config<I, W, R>, s: State<I, R>, key: string): Option<I> {
    if key in s.pending && s.pending[key].callers != [] then Some(Fold(c.merge, Inputs(s.pending[key].callers))) else None
  }

  /**
   * After every run, a call is answered on arrival exactly when its input does not merge with the fold of the inputs
   * accepted so far under its key; the answer is then the error of that merge. Any other call is accepted, last in line.
   */
  lemma RejectedIffConflict<I, W, R>(c: Config<I, W, R>, es: seq<Event<I, W>>, e: Event<I, W>)
    requires Run(c, es).Some? && e.Input? && Enabled(Run(c, es).value, e)
    ensures var s := Run(c, es).value; AnswersOrAccepts(c, s, e, Step(c, s, e), FoldOfPending(c, s, e.key))
  {
    RunKeepsInvariant(c, es);
    var s := Run(c, es).value;
    PendingIsFold(c, s, e.key);
    StepAnswersOrAccepts(c, s, e);
  }

  lemma PendingIsFold<I, W, R>(c: Config<I, W, R>, s: State<I, R>, key: string)
    requires ContentsMatch(c, s)
    ensures FoldOfPending(c, s, key) == if key in s.pending then Some(s.pending[key].input) else None
  {
    if key in s.pending {
      assert EntryMatches(c.merge, s.arrivals, key, s.pending[key].input, s.pending[key].callers);
    }
  }

  // ----- Everybody is answered in the end -----

  /** The caller at this place has received its result. */
  ghost predicate Answered<I, R>(s: State<I, R>, channel: nat) {
    exists d :: 0 <= d < |s.deliveries| && s.deliveries[d].channel == channel
  }

  /** No timer is outstanding and every execution has finished and served all its callers. */
  predicate Idle<I, R>(s: State<I, R>) {
    && s.timers == multiset{}
    && forall i :: 0 <= i < |s.executions| ==>
         s.executions[i].outcome.Some? && s.executions[i].sent == |s.executions[i].callers|
  }

  /** The system can move on its own: a timer, the end of an execution or a send is possible. */
  ghost predicate CanProgress<I, W, R>(s: State<I, R>, world: W) {
    || (exists key :: Enabled(s, Event<I, W>.Timer(key)))
    || (exists i :: Enabled(s, Finish(i, world)))
    || (exists i :: Enabled(s, Event<I, W>.Send(i)))
  }

  /** What the invariant says about the shape of the work: no entry is empty, none is orphaned. */
  ghost predicate WorkShape<I, R>(s: State<I, R>) {
    && (forall key :: key in s.timers <==> key in s.pending)
    && (forall key :: key in s.pending ==> s.pending[key].callers != [])
    && (forall i :: 0 <= i < |s.executions| ==> ExecutionShape(s.executions[i]))
  }

  predicate ExecutionShape<I, R>(x: Execution<I, R>) {
    x.callers != [] && x.sent <= |x.callers| && (x.sent > 0 ==> x.outcome.Some?)
  }

  lemma InvShapesWork<I, W, R>(c: Config<I, W, R>, s: State<I, R>)
    requires TimersMatch(s) && ContentsMatch(c, s)
    ensures WorkShape(s)
  {
    forall i | 0 <= i < |s.executions| ensures ExecutionShape(s.executions[i]) {
      assert ExecutionMatches(c.merge, s.arrivals, s.executions[i]);
    }
  }

  lemma UnansweredPlaceProgresses<I, W, R>(s: State<I, R>, place: Place, channel: nat, world: W)
    requires WorkShape(s) && At(s, place, channel) && !Answered(s, channel)
    ensures CanProgress(s, world)
  {
    match place {
      case InPending(key, slot) => assert Enabled(s, Event<I, W>.Timer(key));
      case InExecution(index, slot) =>
        if s.executions[index].outcome.None? {
          assert Enabled(s, Finish(index, world));
        } else {
          assert Enabled(s, Event<I, W>.Send(index));
        }
      case Delivered(position) => assert false;
    }
  }

  /** A caller that has not been answered leaves the system able to move on its own. */
  lemma UnansweredCanProgress<I, W, R>(c: Config<I, W, R>, es: seq<Event<I, W>>, channel: nat, world: W)
    requires Run(c, es).Some? && channel in Run(c, es).value.arrivals
    requires !Answered(Run(c, es).value, channel)
    ensures CanProgress(Run(c, es).value, world)
  {
    RunKeepsInvariant(c, es);
    InvShapesWork(c, Run(c, es).value);
    var place := ExactlyOnePlace(c, es, channel);
    UnansweredPlaceProgresses(Run(c, es).value, place, channel, world);
  }

  /** The system comes to rest exactly when it is idle, which it is exactly when every caller was answered. */
  lemma AtRestAllAreAnswered<I, W, R>(c: Config<I, W, R>, es: seq<Event<I, W>>, world: W)
    requires Run(c, es).Some?
    ensures var s := Run(c, es).value;
            && (!CanProgress(s, world) <==> Idle(s))
            && (Idle(s) <==> forall channel :: channel in s.arrivals ==> Answered(s, channel))
  {
    var s := Run(c, es).value;
    RunKeepsInvariant(c, es);
    InvShapesWork(c, s);
    RestIsIdle(s, world);
    if Idle(s) {
      forall channel | channel in s.arrivals ensures Answered(s, channel) {
        if !Answered(s, channel) { UnansweredCanProgress(c, es, channel, world); }
      }
    } else if forall channel :: channel in s.arrivals ==> Answered(s, channel) {
      var places :| Tracks(s, places);
      AnsweredIsIdle(s, places);
    }
  }

  lemma RestIsIdle<I, W, R>(s: State<I, R>, world: W)
    requires WorkShape(s)
    ensures !CanProgress(s, world) <==> Idle(s)
  {
    if !CanProgress(s, world) {
      forall i | 0 <= i < |s.executions|
        ensures s.executions[i].outcome.Some? && s.executions[i].sent == |s.executions[i].callers|
      {
        assert !Enabled(s, Finish(i, world)) && !Enabled(s, Event<I, W>.Send(i));
        assert ExecutionShape(s.executions[i]);
      }
      forall key ensures key !in s.timers { assert !Enabled(s, Event<I, W>.Timer(key)); }
    }
  }

  lemma AnsweredIsIdle<I, R>(s: State<I, R>, places: map<nat, Place>)
    requires WorkShape(s) && Tracks(s, places) && forall channel :: channel in s.arrivals ==> Answered(s, channel)
    ensures Idle(s)
  {
    forall key ensures key !in s.timers {
      if key in s.timers { AnsweredIsDelivered(s, places, InPending(key, 0), s.pending[key].callers[0].channel); }
    }
    forall i | 0 <= i < |s.executions|
      ensures s.executions[i].outcome.Some? && s.executions[i].sent == |s.executions[i].callers|
    {
      var x := s.executions[i];
      assert ExecutionShape(x);
      if x.sent < |x.callers| { AnsweredIsDelivered(s, places, InExecution(i, x.sent), x.callers[x.sent].channel); }
    }
  }

  lemma AnsweredIsDelivered<I, R>(s: State<I, R>, places: map<nat, Place>, place: Place, channel: nat)
    requires Tracks(s, places) && At(s, place, channel)
    requires forall ch :: ch in s.arrivals ==> Answered(s, ch)
    ensures place.Delivered?
  {
    assert Answered(s, channel);
    var d :| 0 <= d < |s.deliveries| && s.deliveries[d].channel == channel;
    assert At(s, Delivered(d), channel);
  }

  /** The history of a call that nobody else joins. */
  function LoneCall<I, W>(key: string, input: I, world: W): seq<Event<I, W>> {
    [Input(key, 0, input), Timer(key), Finish(0, world), Send(0)]
  }

  lemma LoneCallIsExecuted<I, W, R>(c: Config<I, W, R>, key: string, input: I, world: W)
    ensures var run := Run(c, LoneCall(key, input, world));
            && run.Some?
            && run.value.deliveries == [Delivery(0, c.execute(key, input, world), FromExecution(0, 0))]
            && run.value.arrivals == map[0 := Arrival(key, input)]
  {
    var es := LoneCall(key, input, world);
    var s0: State<I, R> := Init();
    var s1 := Step(c, s0, es[0]);
    var s2 := Step(c, s1, es[1]);
    var s3 := Step(c, s2, es[2]);
    assert es[..1][..0] == [] && es[..2][..1] == es[..1] && es[..3][..2] == es[..2] && es[..|es| - 1] == es[..3];
    assert Run(c, es[..1]) == Some(s1);
    assert Run(c, es[..2]) == Some(s2);
    assert Run(c, es[..3]) == Some(s3);
  }

  // ----- Rejected inputs leave no trace -----

  /** The history without the inputs that were rejected on arrival. */
  function EraseRejected<I, W, R>(c: Config<I, W, R>, es: seq<Event<I, W>>): seq<Event<I, W>>
    requires Run(c, es).Some?
  {
    if es == [] then []
    else
      var prefix, e := es[..|es| - 1], es[|es| - 1];
      if IsRejected(c, Run(c, prefix).value, e) then EraseRejected(c, prefix)
      else EraseRejected(c, prefix) + [e]
  }

  function FromExecutions<R>(ds: seq<Delivery<R>>): seq<Delivery<R>> {
    if ds == [] then []
    else
      var rest, d := FromExecutions(ds[..|ds| - 1]), ds[|ds| - 1];
      if d.source.Rejected? then rest else rest + [d]
  }

  /** States with the same pending entries, timers and executions: the future does not depend on more. */
  predicate SameWork<I(==), R(==)>(s: State<I, R>, t: State<I, R>) {
    t.pending == s.pending && t.timers == s.timers && t.executions == s.executions && t.next <= s.next
  }

  lemma StepOnSameWork<I, W, R>(c: Config<I, W, R>, s: State<I, R>, t: State<I, R>, e: Event<I, W>)
    requires Enabled(s, e) && SameWork(s, t) && !IsRejected(c, s, e)
    ensures Enabled(t, e) && SameWork(Step(c, s, e), Step(c, t, e))
    ensures t.deliveries == FromExecutions(s.deliveries) ==>
              Step(c, t, e).deliveries == FromExecutions(Step(c, s, e).deliveries)
  {
    if e.Send? {
      var after := Step(c, s, e).deliveries;
      assert after[..|after| - 1] == s.deliveries;
    }
  }

  /**
   * Dropping the rejected calls from a history changes nothing but the errors they received: what is
   * pending, what was executed and what every other caller received stay the same, although a failing
   * merge returns a partly updated value.
   */
  lemma {:induction false} RejectedLeaveNoTrace<I, W, R>(c: Config<I, W, R>, es: seq<Event<I, W>>)
    requires Run(c, es).Some?
    ensures Run(c, EraseRejected(c, es)).Some?
    ensures var s, t := Run(c, es).value, Run(c, EraseRejected(c, es)).value;
            SameWork(s, t) && t.deliveries == FromExecutions(s.deliveries)
  {
    if es != [] {
      var prefix, e := es[..|es| - 1], es[|es| - 1];
      RejectedLeaveNoTrace(c, prefix);
      var s := Run(c, prefix).value;
      var kept := EraseRejected(c, prefix);
      if IsRejected(c, s, e) {
        var after := Step(c, s, e).deliveries;
        assert after[..|after| - 1] == s.deliveries;
      } else {
        StepOnSameWork(c, s, Run(c, kept).value, e);
        assert (kept + [e])[..|kept|] == kept;
      }
    }
  }

  // ----- The loop itself -----

  /** An entry of `pendingInputs`: the merged input and the channels waiting for its result. */
  datatype PendingInput<+I> = PendingInput(input: I, resultChannels: seq<nat>)

  function Channels<I>(callers: seq<Caller<I>>): (r: seq<nat>)
    ensures |r| == |callers|
  {
    seq(|callers|, i requires 0 <= i < |callers| => callers[i].channel)
  }

  /** The select loop's own state, with the whole system's state as its specification. */
  class Loop<I, W, R> {
    const config: Config<I, W, R>
    var pendingInputs: map<string, PendingInput<I>>
    ghost var system: State<I, R>

    ghost predicate Valid()
      reads this
    {
      && pendingInputs.Keys == system.pending.Keys
      && forall key :: key in pendingInputs ==>
           && pendingInputs[key].input == system.pending[key].input
           && pendingInputs[key].resultChannels == Channels(system.pending[key].callers)
    }

    constructor (config: Config<I, W, R>)
      ensures Valid() && this.config == config && system == Init() && pendingInputs == map[]
    {
      this.config := config;
      pendingInputs := map[];
      system := Init();
    }

    /** The input case. `refused` is the error sent back at once, `armed` whether a timer was started. */
    method ReceiveInput(key: string, channel: nat, input: I) returns (refused: Option<string>, armed: bool)
      requires Valid() && Enabled(system, Event<I, W>.Input(key, channel, input))
      modifies this
      ensures Valid()
      ensures system == Step(config, old(system), Event.Input(key, channel, input))
      ensures armed <==> system.timers != old(system.timers)
      ensures refused.Some? ==>
                && pendingInputs == old(pendingInputs)
                && system.deliveries == old(system.deliveries) + [Delivery(channel, Err(refused.value), Rejected)]
      ensures refused.None? ==> system.deliveries == old(system.deliveries)
    {
      refused, armed := None, false;
      if key in pendingInputs {
        var pending := pendingInputs[key];
        var merged := config.merge(input, pending.input);
        if merged.err.None? {
          pending := PendingInput(merged.value, pending.resultChannels + [channel]);
          pendingInputs := pendingInputs[key := pending];
        } else {
          refused := Some(merged.err.value);
        }
      } else {
        pendingInputs := pendingInputs[key := PendingInput(input, [channel])];
        armed := true;
      }
      ghost var before := system;
      system := Step(config, system, Event.Input(key, channel, input));
      assert armed ==> system.timers[key] == before.timers[key] + 1;
    }

    /** The timer case. The removed entry is what the new goroutine executes. */
    method ReceiveTimer(key: string) returns (batch: PendingInput<I>)
      requires Valid() && Enabled(system, Event<I, W>.Timer(key))
      modifies this
      ensures Valid()
      ensures system == Step(config, old(system), Event<I, W>.Timer(key))
      ensures var x := system.executions[|system.executions| - 1];
              batch == PendingInput(x.input, Channels(x.callers)) && x.key == key && x.outcome.None?
    {
      batch := if key in pendingInputs then pendingInputs[key] else PendingInput(config.zero, []);
      pendingInputs := pendingInputs - {key};
      system := Step(config, system, Event<I, W>.Timer(key));
    }
  }
}
