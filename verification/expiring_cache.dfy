/**
 * The expiring cache of pkg/expiringcache/expiring_cache.go.
 *
 * Every stored value has a runtime timer whose callback deletes its key. A timer fires when its deadline
 * has passed; the callback then waits for the mutex, so other operations may come between. Resetting a
 * timer that has fired arms it again without recalling the callback.
 */
module ExpiringCache {

  import opened Base

  datatype Timed<+V> = Timed(value: V, timer: nat)

  /** A runtime timer for a key: armed with a deadline or not, and its callbacks that still have to run. */
  datatype Timer<+K> = Timer(key: K, deadline: Option<nat>, callbacks: nat)

  datatype State<K, V> = State(values: map<K, Timed<V>>, timers: seq<Timer<K>>, now: nat)

  datatype Event<K, V> =
    | Get(key: K)
    | Set(key: K, value: V)
    | Remove(key: K)
    | Fire(timer: nat)
    | Callback(timer: nat)
    | Tick

  function Init<K, V>(): State<K, V> {
    State(map[], [], 0)
  }

  predicate Enabled<K, V>(s: State<K, V>, e: Event<K, V>) {
    match e
    case Fire(t) => t < |s.timers| && s.timers[t].deadline.Some? && s.timers[t].deadline.value <= s.now
    case Callback(t) => t < |s.timers| && s.timers[t].callbacks > 0
    case _ => true
  }

  /** The entry's timer, if it is one that exists, starts anew. */
  function Reset<K, V>(delay: nat, s: State<K, V>, t: nat): seq<Timer<K>> {
    if t < |s.timers| then s.timers[t := s.timers[t].(deadline := Some(s.now + delay))] else s.timers
  }

  function Step<K, V>(delay: nat, s: State<K, V>, e: Event<K, V>): State<K, V>
    requires Enabled(s, e)
  {
    match e
    case Get(key) =>
      if key in s.values then s.(timers := Reset(delay, s, s.values[key].timer)) else s
    case Set(key, value) =>
      if key in s.values then
        s.(timers := Reset(delay, s, s.values[key].timer), values := s.values[key := s.values[key].(value := value)])
      else
        s.(timers := s.timers + [Timer(key, Some(s.now + delay), 0)],
           values := s.values[key := Timed(value, |s.timers|)])
    case Remove(key) => s.(values := s.values - {key})
    case Fire(t) =>
      s.(timers := s.timers[t := s.timers[t].(deadline := None, callbacks := s.timers[t].callbacks + 1)])
    case Callback(t) =>
      s.(timers := s.timers[t := s.timers[t].(callbacks := s.timers[t].callbacks - 1)],
         values := s.values - {s.timers[t].key})
    case Tick => s.(now := s.now + 1)
  }

  function Run<K, V>(delay: nat, es: seq<Event<K, V>>): Option<State<K, V>> {
    if es == [] then Some(Init())
    else
      var before := Run(delay, es[..|es| - 1]);
      if before.Some? && Enabled(before.value, es[|es| - 1])
      then Some(Step(delay, before.value, es[|es| - 1]))
      else None
  }

  /** What Get returns in a state. */
  function Lookup<K, V>(s: State<K, V>, key: K): Option<V> {
    if key in s.values then Some(s.values[key].value) else None
  }

  // ----- A map that may lose entries -----

  /** The value last set since the key was last removed by a caller: what a plain map would hold. */
  function LastSet<K(==), V>(es: seq<Event<K, V>>, key: K): Option<V> {
    if es == [] then None
    else
      var e := es[|es| - 1];
      if e.Set? && e.key == key then Some(e.value)
      else if e.Remove? && e.key == key then None
      else LastSet(es[..|es| - 1], key)
  }

  /** After every history a lookup finds nothing or what a plain map would hold: no stale or foreign value. */
  lemma {:induction false} LookupIsLastSetOrNothing<K, V>(delay: nat, es: seq<Event<K, V>>, key: K)
    requires Run(delay, es).Some?
    ensures var found := Lookup(Run(delay, es).value, key); found.None? || found == LastSet(es, key)
  {
    if es != [] { LookupIsLastSetOrNothing(delay, es[..|es| - 1], key); }
  }

  /** A callback of a timer for the key ran after the key was last set. */
  ghost predicate CallbackSinceSet<K, V>(delay: nat, es: seq<Event<K, V>>, key: K)
    requires Run(delay, es).Some?
  {
    && es != []
    && var before, e := es[..|es| - 1], es[|es| - 1];
       && !(e.Set? && e.key == key)
       && ((e.Callback? && Run(delay, before).value.timers[e.timer].key == key) || CallbackSinceSet(delay, before, key))
  }

  /**
   * After every history a lookup finds a value exactly when that value was last set, and neither a removal nor a
   * callback for the key came since: nothing else takes a key away.
   */
  lemma {:induction false} FoundIffNotTakenAway<K, V>(delay: nat, es: seq<Event<K, V>>, key: K)
    requires Run(delay, es).Some?
    ensures Lookup(Run(delay, es).value, key) == if CallbackSinceSet(delay, es, key) then None else LastSet(es, key)
  {
    if es != [] {
      var before, e := es[..|es| - 1], es[|es| - 1];
      FoundIffNotTakenAway(delay, before, key);
      StepLookup(delay, Run(delay, before).value, e, key);
    }
  }

  /** What one event does to a lookup. */
  lemma StepLookup<K, V>(delay: nat, s: State<K, V>, e: Event<K, V>, key: K)
    requires Enabled(s, e)
    ensures Lookup(Step(delay, s, e), key)
         == if e.Set? && e.key == key then Some(e.value)
            else if e.Remove? && e.key == key then None
            else if e.Callback? && s.timers[e.timer].key == key then None
            else Lookup(s, key)
  {
  }

  // ----- Nothing is kept forever -----

  /** The key's timer exists, is a timer for that key, and is armed or has a callback on its way. */
  ghost predicate Doomed<K, V>(s: State<K, V>, key: K)
    requires key in s.values
  {
    && s.values[key].timer < |s.timers|
    && var t := s.timers[s.values[key].timer];
       t.key == key && (t.deadline.Some? || t.callbacks > 0)
  }

  ghost predicate Inv<K, V>(s: State<K, V>) {
    && (forall key :: key in s.values ==> Doomed(s, key))
    && (forall k1, k2 :: k1 in s.values && k2 in s.values && s.values[k1].timer == s.values[k2].timer ==> k1 == k2)
  }

  lemma StepKeepsInv<K, V>(delay: nat, s: State<K, V>, e: Event<K, V>)
    requires Enabled(s, e) && Inv(s)
    ensures Inv(Step(delay, s, e))
  {
    var t := Step(delay, s, e);
    forall key | key in t.values ensures Doomed(t, key) {
      if key in s.values { assert Doomed(s, key); }
    }
  }

  /** After every history, each stored key has an armed timer of its own or a callback that will delete it. */
  lemma {:induction false} EveryKeyIsDoomed<K, V>(delay: nat, es: seq<Event<K, V>>)
    requires Run(delay, es).Some?
    ensures Inv(Run(delay, es).value)
  {
    if es != [] {
      EveryKeyIsDoomed(delay, es[..|es| - 1]);
      StepKeepsInv(delay, Run(delay, es[..|es| - 1]).value, es[|es| - 1]);
    }
  }

  // ----- How early a key may go -----

  /** When the stored key was last set, or found by Get. */
  function LastTouch<K(==), V>(delay: nat, es: seq<Event<K, V>>, key: K): nat
    requires Run(delay, es).Some?
  {
    if es == [] then 0
    else
      var before, e := es[..|es| - 1], es[|es| - 1];
      if (e.Set? || e.Get?) && e.key == key then Run(delay, before).value.now else LastTouch(delay, before, key)
  }

  /** The key's own timer, if armed, is due `delay` after this time; if not, that time has passed. */
  ghost predicate DueAfter<K, V>(delay: nat, s: State<K, V>, key: K, touched: nat) {
    key in s.values ==>
      && Doomed(s, key)
      && var due := s.timers[s.values[key].timer].deadline;
         if due.Some? then due.value == touched + delay else touched + delay <= s.now
  }

  lemma StepDueAfter<K, V>(delay: nat, s: State<K, V>, e: Event<K, V>, key: K, touched: nat)
    requires Enabled(s, e) && Inv(s) && DueAfter(delay, s, key, touched)
    ensures DueAfter(delay, Step(delay, s, e), key, if (e.Set? || e.Get?) && e.key == key then s.now else touched)
  {
    StepKeepsInv(delay, s, e);
  }

  /** A stored key's own timer fires no earlier than `delay` after the key was last touched. */
  lemma {:induction false} OwnTimerIsNeverEarly<K, V>(delay: nat, es: seq<Event<K, V>>, key: K)
    requires Run(delay, es).Some?
    ensures DueAfter(delay, Run(delay, es).value, key, LastTouch(delay, es, key))
  {
    if es != [] {
      var before, e := es[..|es| - 1], es[|es| - 1];
      EveryKeyIsDoomed(delay, before);
      OwnTimerIsNeverEarly(delay, before, key);
      StepDueAfter(delay, Run(delay, before).value, e, key, LastTouch(delay, before, key));
    }
  }

  /** A timer that may still delete its key: armed, or with a callback on its way. */
  predicate Live<K>(t: Timer<K>) {
    t.deadline.Some? || t.callbacks > 0
  }

  /** A callback that deletes this key is on its way. */
  ghost predicate CallbackOnItsWay<K, V>(s: State<K, V>, key: K) {
    exists t :: 0 <= t < |s.timers| && s.timers[t].key == key && s.timers[t].callbacks > 0
  }

  /** Nobody has removed the key, or touched it while one of its callbacks was on its way. */
  ghost predicate Undisturbed<K, V>(delay: nat, es: seq<Event<K, V>>, key: K)
    requires Run(delay, es).Some?
  {
    es == [] ||
    var before, e := es[..|es| - 1], es[|es| - 1];
    && Undisturbed(delay, before, key)
    && !(e.Remove? && e.key == key)
    && ((e.Set? || e.Get?) && e.key == key ==> !CallbackOnItsWay(Run(delay, before).value, key))
  }

  /** The key has one live timer, its own, which is armed or has a callback on its way but not both. */
  ghost predicate OneLiveTimer<K, V>(s: State<K, V>, key: K) {
    forall t :: 0 <= t < |s.timers| && s.timers[t].key == key && Live(s.timers[t]) ==>
      && key in s.values && s.values[key].timer == t
      && (s.timers[t].callbacks > 0 ==> s.timers[t].deadline.None? && s.timers[t].callbacks == 1)
  }

  lemma StepKeepsOneLiveTimer<K, V>(delay: nat, s: State<K, V>, e: Event<K, V>, key: K)
    requires Enabled(s, e) && Inv(s) && OneLiveTimer(s, key)
    requires !(e.Remove? && e.key == key)
    requires (e.Set? || e.Get?) && e.key == key ==> !CallbackOnItsWay(s, key)
    ensures OneLiveTimer(Step(delay, s, e), key)
  {
    if (e.Set? || e.Get?) && e.key in s.values { assert Doomed(s, e.key); }
  }

  lemma {:induction false} UndisturbedHasOneLiveTimer<K, V>(delay: nat, es: seq<Event<K, V>>, key: K)
    requires Run(delay, es).Some? && Undisturbed(delay, es, key)
    ensures OneLiveTimer(Run(delay, es).value, key)
  {
    if es != [] {
      var before := es[..|es| - 1];
      EveryKeyIsDoomed(delay, before);
      UndisturbedHasOneLiveTimer(delay, before, key);
      StepKeepsOneLiveTimer(delay, Run(delay, before).value, es[|es| - 1], key);
    }
  }

  /**
   * For every history in which nobody removes the key, or touches it while one of its callbacks is on its
   * way, no callback takes a value away sooner than `delay` after it was last touched.
   */
  lemma UndisturbedIsNeverEarly<K, V>(delay: nat, es: seq<Event<K, V>>, t: nat)
    requires Run(delay, es).Some? && Enabled(Run(delay, es).value, Callback(t))
    requires Undisturbed(delay, es, Run(delay, es).value.timers[t].key)
    ensures var s := Run(delay, es).value;
            var key := s.timers[t].key;
            key in s.values && LastTouch(delay, es, key) + delay <= s.now
  {
    var key := Run(delay, es).value.timers[t].key;
    UndisturbedHasOneLiveTimer(delay, es, key);
    OwnTimerIsNeverEarly(delay, es, key);
  }

  /** When the key was last set, or last found by Get. */
  function LastHit<K(==), V>(delay: nat, es: seq<Event<K, V>>, key: K): Option<nat>
    requires Run(delay, es).Some?
  {
    if es == [] then None
    else
      var before, e := es[..|es| - 1], es[|es| - 1];
      if (e.Set? && e.key == key) || (e.Get? && e.key == key && Lookup(Run(delay, before).value, key).Some?)
      then Some(Run(delay, before).value.now)
      else LastHit(delay, before, key)
  }

  lemma {:induction false} StoredWasHit<K, V>(delay: nat, es: seq<Event<K, V>>, key: K)
    requires Run(delay, es).Some? && key in Run(delay, es).value.values
    ensures LastHit(delay, es, key) == Some(LastTouch(delay, es, key))
  {
    var before, e := es[..|es| - 1], es[|es| - 1];
    StepLookup(delay, Run(delay, before).value, e, key);
    if key in Run(delay, before).value.values { StoredWasHit(delay, before, key); }
  }

  /** In an undisturbed history, a key that was set or found less than `delay` ago is found, with its value. */
  lemma {:induction false} RecentIsFound<K, V>(delay: nat, es: seq<Event<K, V>>, key: K)
    requires Run(delay, es).Some? && Undisturbed(delay, es, key)
    requires LastHit(delay, es, key).Some? && Run(delay, es).value.now < LastHit(delay, es, key).value + delay
    ensures Lookup(Run(delay, es).value, key).Some? && Lookup(Run(delay, es).value, key) == LastSet(es, key)
  {
    LookupIsLastSetOrNothing(delay, es, key);
    var before, e := es[..|es| - 1], es[|es| - 1];
    var s := Run(delay, before).value;
    StepLookup(delay, s, e, key);
    if !(e.Set? && e.key == key) && Lookup(s, key).None? {
      RecentIsFound(delay, before, key);
    } else if e.Callback? && s.timers[e.timer].key == key {
      StoredWasHit(delay, before, key);
      UndisturbedIsNeverEarly(delay, before, e.timer);
    }
  }

  // ----- Exactly when a key may go early -----

  /** Only time passes and timers go off. */
  predicate Passive<K, V>(es: seq<Event<K, V>>) {
    forall i :: 0 <= i < |es| ==> es[i].Tick? || es[i].Fire? || es[i].Callback?
  }

  /** A passive continuation after which the key is gone before `limit`. */
  ghost predicate GoneBefore<K, V>(delay: nat, es: seq<Event<K, V>>, more: seq<Event<K, V>>, key: K, limit: nat) {
    && Passive(more)
    && Run(delay, es + more).Some?
    && key !in Run(delay, es + more).value.values
    && Run(delay, es + more).value.now < limit
  }

  /** A timer for the key has a callback on its way or is armed for a time before `limit`. */
  ghost predicate Threatened<K, V>(s: State<K, V>, key: K, limit: nat) {
    exists t :: 0 <= t < |s.timers| && Threatens(s.timers[t], key, limit)
  }

  predicate Threatens<K(==)>(t: Timer<K>, key: K, limit: nat) {
    t.key == key && (t.callbacks > 0 || (t.deadline.Some? && t.deadline.value < limit))
  }

  lemma PassiveStepIsSafe<K, V>(delay: nat, s: State<K, V>, e: Event<K, V>, key: K, limit: nat)
    requires Enabled(s, e) && (e.Tick? || e.Fire? || e.Callback?)
    requires key in s.values && !Threatened(s, key, limit) && s.now < limit
    ensures var t := Step(delay, s, e); key in t.values && !Threatened(t, key, limit) && s.now <= t.now
  {
    var t := Step(delay, s, e);
    if e.Fire? || e.Callback? { assert !Threatens(s.timers[e.timer], key, limit); }
    forall i | 0 <= i < |t.timers| ensures !Threatens(t.timers[i], key, limit) {
      assert !Threatens(s.timers[i], key, limit);
    }
  }

  lemma {:induction false} UnthreatenedStays<K, V>(
    delay: nat, es: seq<Event<K, V>>, more: seq<Event<K, V>>, key: K, limit: nat)
    requires Run(delay, es).Some? && Run(delay, es + more).Some? && Passive(more)
    requires key in Run(delay, es).value.values && !Threatened(Run(delay, es).value, key, limit)
    ensures var t := Run(delay, es + more).value;
            t.now < limit ==> key in t.values && !Threatened(t, key, limit)
  {
    if more == [] {
      assert es + more == es;
    } else {
      var last := |more| - 1;
      assert (es + more)[..|es + more| - 1] == es + more[..last];
      UnthreatenedStays(delay, es, more[..last], key, limit);
      var s := Run(delay, es + more[..last]).value;
      assert more[last] == (es + more)[|es + more| - 1];
      if s.now < limit { PassiveStepIsSafe(delay, s, more[last], key, limit); }
    }
  }

  /** Wait until timer `t` is due. */
  function UntilDue<K, V>(s: State<K, V>, t: nat): nat
    requires t < |s.timers|
  {
    if s.timers[t].deadline.Some? && s.timers[t].deadline.value > s.now then s.timers[t].deadline.value - s.now else 0
  }

  lemma ThreatCanBeCarriedOut<K, V>(delay: nat, es: seq<Event<K, V>>, t: nat, key: K, limit: nat)
    returns (more: seq<Event<K, V>>)
    requires Run(delay, es).Some? && t < |Run(delay, es).value.timers|
    requires Threatens(Run(delay, es).value.timers[t], key, limit) && Run(delay, es).value.now < limit
    ensures GoneBefore(delay, es, more, key, limit)
  {
    var s := Run(delay, es).value;
    if s.timers[t].callbacks > 0 {
      RunOneMore(delay, es, Callback(t));
      more := [Callback(t)];
    } else {
      var ticks := seq(UntilDue(s, t), _ => Event<K, V>.Tick);
      RunTicks(delay, es, ticks);
      var waited := es + ticks;
      RunOneMore(delay, waited, Fire(t));
      RunOneMore(delay, waited + [Fire(t)], Callback(t));
      more := ticks + [Fire(t)] + [Callback(t)];
      assert es + more == waited + [Fire(t)] + [Callback(t)];
    }
  }

  lemma {:induction false} RunTicks<K, V>(delay: nat, es: seq<Event<K, V>>, ticks: seq<Event<K, V>>)
    requires Run(delay, es).Some? && forall i :: 0 <= i < |ticks| ==> ticks[i].Tick?
    ensures var s := Run(delay, es).value; Run(delay, es + ticks) == Some(State(s.values, s.timers, s.now + |ticks|))
  {
    if ticks == [] {
      assert es + ticks == es;
    } else {
      var fewer := ticks[..|ticks| - 1];
      RunTicks(delay, es, fewer);
      RunOneMore(delay, es + fewer, Tick);
      assert es + fewer + [Tick] == es + ticks;
    }
  }

  lemma MayGoBeforeIff<K, V>(delay: nat, es: seq<Event<K, V>>, s: State<K, V>, key: K, limit: nat)
    requires Run(delay, es) == Some(s) && key in s.values
    ensures (exists more :: GoneBefore(delay, es, more, key, limit)) <==> s.now < limit && Threatened(s, key, limit)
  {
    if s.now < limit && Threatened(s, key, limit) {
      var t :| 0 <= t < |s.timers| && Threatens(s.timers[t], key, limit);
      var more := ThreatCanBeCarriedOut(delay, es, t, key, limit);
    } else if exists more :: GoneBefore(delay, es, more, key, limit) {
      var more :| GoneBefore(delay, es, more, key, limit);
      UnthreatenedIsNotGone(delay, es, more, key, limit);
    }
  }

  /**
   * Exactly when a stored key may go, without anybody doing anything, sooner than `delay` after it was last
   * touched: when that time has not come yet and some timer for the key, left over by a removed entry or its
   * own from before it was reset, has a callback on its way or is armed for an earlier time.
   */
  lemma MayGoEarlyIff<K, V>(delay: nat, es: seq<Event<K, V>>, key: K)
    requires Run(delay, es).Some? && key in Run(delay, es).value.values
    ensures var s, limit := Run(delay, es).value, LastTouch(delay, es, key) + delay;
            (exists more :: GoneBefore(delay, es, more, key, limit)) <==> s.now < limit && Threatened(s, key, limit)
  {
    MayGoBeforeIff(delay, es, Run(delay, es).value, key, LastTouch(delay, es, key) + delay);
  }

  lemma UnthreatenedIsNotGone<K, V>(delay: nat, es: seq<Event<K, V>>, more: seq<Event<K, V>>, key: K, limit: nat)
    requires Run(delay, es).Some? && key in Run(delay, es).value.values
    requires limit <= Run(delay, es).value.now || !Threatened(Run(delay, es).value, key, limit)
    ensures !GoneBefore(delay, es, more, key, limit)
  {
    if GoneBefore(delay, es, more, key, limit) {
      if Run(delay, es).value.now < limit {
        UnthreatenedStays(delay, es, more, key, limit);
      } else {
        TimeOnlyPasses(delay, es, more);
      }
    }
  }

  lemma {:induction false} TimeOnlyPasses<K, V>(delay: nat, es: seq<Event<K, V>>, more: seq<Event<K, V>>)
    requires Run(delay, es).Some? && Run(delay, es + more).Some?
    ensures Run(delay, es).value.now <= Run(delay, es + more).value.now
  {
    if more == [] {
      assert es + more == es;
    } else {
      assert (es + more)[..|es + more| - 1] == es + more[..|more| - 1];
      TimeOnlyPasses(delay, es, more[..|more| - 1]);
    }
  }

  /** The key's own timer threatens it only with a callback from before the timer was reset. */
  ghost predicate OwnTimerThreatensByCallback<K, V>(s: State<K, V>, key: K, limit: nat) {
    key in s.values ==>
      && s.values[key].timer < |s.timers|
      && var own := s.timers[s.values[key].timer]; Threatens(own, key, limit) <==> own.callbacks > 0
  }

  lemma DueIsNoThreat<K, V>(delay: nat, s: State<K, V>, key: K, touched: nat)
    requires DueAfter(delay, s, key, touched)
    ensures OwnTimerThreatensByCallback(s, key, touched + delay)
  {
  }

  lemma OwnTimerThreatensIff<K, V>(delay: nat, es: seq<Event<K, V>>, key: K)
    requires Run(delay, es).Some?
    ensures OwnTimerThreatensByCallback(Run(delay, es).value, key, LastTouch(delay, es, key) + delay)
  {
    OwnTimerIsNeverEarly(delay, es, key);
    DueIsNoThreat(delay, Run(delay, es).value, key, LastTouch(delay, es, key));
  }

  lemma RunOneMore<K, V>(delay: nat, es: seq<Event<K, V>>, e: Event<K, V>)
    requires Run(delay, es).Some? && Enabled(Run(delay, es).value, e)
    ensures Run(delay, es + [e]) == Some(Step(delay, Run(delay, es).value, e))
  {
    assert (es + [e])[..|es|] == es;
  }

  lemma HistoryOneMore<K, V>(delay: nat, es: seq<Event<K, V>>, e: Event<K, V>, key: K)
    requires Run(delay, es).Some? && Run(delay, es + [e]).Some?
    ensures LastSet(es + [e], key) == if e.Set? && e.key == key then Some(e.value)
                                      else if e.Remove? && e.key == key then None else LastSet(es, key)
    ensures LastTouch(delay, es + [e], key) == if (e.Set? || e.Get?) && e.key == key then Run(delay, es).value.now
                                               else LastTouch(delay, es, key)
  {
    assert (es + [e])[..|es|] == es;
  }

  /** The shortest history that stores a key. */
  lemma StoredAtOnce<K, V>(delay: nat, key: K, v: V) returns (es: seq<Event<K, V>>)
    ensures Run(delay, es) == Some(State(map[key := Timed(v, 0)], [Timer(key, Some(delay), 0)], 0))
    ensures LastSet(es, key) == Some(v)
  {
    es := [Set(key, v)];
    assert es[..0] == [];
    assert Init<K, V>().timers + [Timer(key, Some(delay), 0)] == [Timer(key, Some(delay), 0)];
    assert Init<K, V>().values[key := Timed(v, 0)] == map[key := Timed(v, 0)];
  }

  /** A history that leaves a key removed, with its old timer due. */
  lemma OldTimerBecomesDue<K, V>(delay: nat, key: K, v: V) returns (es: seq<Event<K, V>>)
    ensures Run(delay, es) == Some(State(map[], [Timer(key, Some(delay), 0)], delay))
  {
    es := StoredAtOnce(delay, key, v);
    RunOneMore(delay, es, Remove(key));
    es := es + [Remove(key)];
    assert Run(delay, es) == Some(State(map[], [Timer(key, Some(delay), 0)], 0)) by {
      assert map[key := Timed(v, 0)] - {key} == map[];
    }
    var ticks := seq(delay, _ => Event<K, V>.Tick);
    RunTicks(delay, es, ticks);
    es := es + ticks;
  }

  /**
   * A key may nevertheless be gone right after it was set: Remove leaves the old timer running, and its
   * callback deletes whatever is stored under the key by then.
   */
  lemma RemovedTimerEvictsSuccessor<K, V>(delay: nat, key: K, v1: V, v2: V)
    ensures exists es: seq<Event<K, V>> ::
              && Run(delay, es).Some? && LastSet(es, key) == Some(v2)
              && LastTouch(delay, es, key) == Run(delay, es).value.now
              && Lookup(Run(delay, es).value, key) == None
  {
    var es := OldTimerBecomesDue(delay, key, v1);
    var e1, e2, e3 := Event<K, V>.Set(key, v2), Event<K, V>.Fire(0), Event<K, V>.Callback(0);
    RunOneMore(delay, es, e1);
    HistoryOneMore(delay, es, e1, key);
    RunOneMore(delay, es + [e1], e2);
    HistoryOneMore(delay, es + [e1], e2, key);
    es := es + [e1] + [e2];
    RunOneMore(delay, es, e3);
    HistoryOneMore(delay, es, e3, key);
    assert Run(delay, es + [e3]).value.now == delay && key !in Run(delay, es + [e3]).value.values;
  }

  /** A history in which the timer of a stored key is due. */
  lemma TimerIsDue<K, V>(delay: nat, key: K, v: V) returns (es: seq<Event<K, V>>)
    ensures Run(delay, es) == Some(State(map[key := Timed(v, 0)], [Timer(key, Some(delay), 0)], delay))
    ensures LastSet(es, key) == Some(v)
  {
    es := StoredAtOnce(delay, key, v);
    var ticks := seq(delay, _ => Event<K, V>.Tick);
    RunTicks(delay, es, ticks);
    TicksAreNoHistory(delay, es, ticks, key);
    es := es + ticks;
  }

  lemma {:induction false} TicksAreNoHistory<K, V>(delay: nat, es: seq<Event<K, V>>, ticks: seq<Event<K, V>>, key: K)
    requires forall i :: 0 <= i < |ticks| ==> ticks[i].Tick?
    ensures LastSet(es + ticks, key) == LastSet(es, key)
  {
    if ticks == [] {
      assert es + ticks == es;
    } else {
      assert (es + ticks)[..|es + ticks| - 1] == es + ticks[..|ticks| - 1];
      TicksAreNoHistory(delay, es, ticks[..|ticks| - 1], key);
    }
  }

  /** Nor does it help to touch a key when its callback is on its way: Get finds the value, and it goes at once. */
  lemma LateTouchDoesNotKeep<K, V>(delay: nat, key: K, v: V)
    ensures exists es: seq<Event<K, V>> ::
              && Run(delay, es).Some? && LastSet(es, key) == Some(v)
              && LastTouch(delay, es, key) == Run(delay, es).value.now
              && Lookup(Run(delay, es).value, key) == None
  {
    var es := TimerIsDue(delay, key, v);
    var e1, e2, e3 := Event<K, V>.Fire(0), Event<K, V>.Get(key), Event<K, V>.Callback(0);
    RunOneMore(delay, es, e1);
    HistoryOneMore(delay, es, e1, key);
    RunOneMore(delay, es + [e1], e2);
    HistoryOneMore(delay, es + [e1], e2, key);
    es := es + [e1] + [e2];
    RunOneMore(delay, es, e3);
    HistoryOneMore(delay, es, e3, key);
    assert Run(delay, es + [e3]).value.now == delay && key !in Run(delay, es + [e3]).value.values;
  }

  // ----- The code itself -----

  class Cache<K(==), V> {
    const expirationDelay: nat
    var values: map<K, Timed<V>>
    var timers: seq<Timer<K>>

    constructor (expirationDelay: nat)
      ensures this.expirationDelay == expirationDelay && Snapshot(0) == Init()
    {
      this.expirationDelay := expirationDelay;
      values, timers := map[], [];
    }

    ghost function Snapshot(now: nat): State<K, V>
      reads this
    {
      State(values, timers, now)
    }

    method Get(key: K, now: nat) returns (r: Option<V>)
      requires Inv(Snapshot(now))
      modifies this
      ensures r == old(Lookup(Snapshot(now), key))
      ensures Snapshot(now) == Step(expirationDelay, old(Snapshot(now)), Event<K, V>.Get(key))
    {
      if key in values {
        var t := values[key].timer;
        assert Doomed(Snapshot(now), key);
        timers := timers[t := timers[t].(deadline := Some(now + expirationDelay))];
        return Some(values[key].value);
      }
      return None;
    }

    method Set(key: K, value: V, now: nat)
      requires Inv(Snapshot(now))
      modifies this
      ensures Snapshot(now) == Step(expirationDelay, old(Snapshot(now)), Event.Set(key, value))
    {
      if key in values {
        var t := values[key].timer;
        assert Doomed(Snapshot(now), key);
        timers := timers[t := timers[t].(deadline := Some(now + expirationDelay))];
        values := values[key := values[key].(value := value)];
      } else {
        values := values[key := Timed(value, |timers|)];
        timers := timers + [Timer(key, Some(now + expirationDelay), 0)];
      }
    }

    method Remove(key: K, ghost now: nat)
      modifies this
      ensures Snapshot(now) == Step(expirationDelay, old(Snapshot(now)), Event<K, V>.Remove(key))
    {
      values := values - {key};
    }

    /** The function given to AfterFunc. */
    method RunCallback(t: nat, ghost now: nat)
      requires Enabled(Snapshot(now), Event<K, V>.Callback(t))
      modifies this
      ensures Snapshot(now) == Step(expirationDelay, old(Snapshot(now)), Event<K, V>.Callback(t))
    {
      values := values - {timers[t].key};
      timers := timers[t := timers[t].(callbacks := timers[t].callbacks - 1)];
    }
  }
}
