/**
 * Publishing and unpublishing volumes: ControllerPublishVolume and ControllerUnpublishVolume of
 * pkg/driver/controller.go drive AttachDisk and DetachDisk of pkg/cloud/cloud.go, which drive the device
 * manager.
 *
 * Calls run concurrently. Each mutex-protected operation is one event, and between the events of a call
 * any events of other calls may come. Instance descriptions, EC2's answers and map orders are arbitrary.
 */
module AttachProtocol {

  import opened Base
  import opened DeviceNames
  import opened DeviceManager
  import opened InFlightGuard

  /** The two calls that work on a volume and a node, and the others that share their guard. */
  datatype Kind = Publish | Unpublish | CreateVolume | DeleteVolume | CreateSnapshot | DeleteSnapshot

  predicate OnNode(kind: Kind) {
    kind.Publish? || kind.Unpublish?
  }

  /**
   * Where a call is: `Holding` a device, before (`asked` false) or after EC2 has accepted the attachment;
   * `bad` is the node's map of likely-bad names the call works with. `Finished` has released its device.
   */
  datatype Phase = Begun | Holding(device: Device, bad: nat, asked: bool) | Finished

  /** For the calls without a node, `volume` is the name or ID that they hold as their key, and `node` is empty. */
  datatype Call = Call(kind: Kind, volume: string, node: string, phase: Phase)

  /**
   * `badNames` are the likely-bad maps ever made. The cache that finds a node's map may lose it at any
   * time, so a call may work with any of them or make a new one. `abandoned` records the reservations that
   * a failed wait left behind.
   */
  datatype State = State(
    guard: set<string>,
    calls: map<nat, Call>,
    inFlight: DeviceManager.InFlight,
    badNames: seq<set<string>>,
    abandoned: set<(string, string)>)

  datatype Event =
    | Begin(id: nat, kind: Kind, volume: string, node: string)
    | NewDevice(id: nat, inst: Instance, bad: nat, numCards: int, answer: Option<Device>)
    | AttachRefused(id: nat, deviceInUse: bool)
    | AttachAccepted(id: nat)
    | WaitSucceeded(id: nat)
    | WaitFailed(id: nat)
    | GetDevice(id: nat, inst: Instance, device: Device)
    | Detached(id: nat)
    | End(id: nat)

  const INIT := State({}, map[], map[], [], {})

  function BadNames(s: State, bad: nat): set<string> {
    if bad < |s.badNames| then s.badNames[bad] else {}
  }

  predicate Holds(s: State, id: nat, kind: Kind, asked: bool) {
    && id in s.calls && s.calls[id].kind == kind
    && s.calls[id].phase.Holding? && s.calls[id].phase.asked == asked
  }

  ghost predicate Enabled(s: State, e: Event) {
    match e
    case Begin(id, kind, volume, node) =>
      id !in s.calls && Key(volume, node) !in s.guard && (OnNode(kind) || node == "")
    case NewDevice(id, inst, bad, numCards, answer) =>
      && id in s.calls && s.calls[id].kind.Publish? && s.calls[id].phase.Begun?
      && inst.id == s.calls[id].node && EbsPresent(inst) && bad <= |s.badNames|
      && MayReturn(inst, On(s.inFlight, inst.id), s.calls[id].volume, BadNames(s, bad), numCards, answer)
    case AttachRefused(id, _) => Holds(s, id, Publish, false)
    case AttachAccepted(id) => Holds(s, id, Publish, false)
    case WaitSucceeded(id) => Holds(s, id, Publish, true)
    case WaitFailed(id) => Holds(s, id, Publish, true)
    case GetDevice(id, inst, device) =>
      && id in s.calls && s.calls[id].kind.Unpublish? && s.calls[id].phase.Begun?
      && inst.id == s.calls[id].node && EbsPresent(inst)
      && MayGet(inst, On(s.inFlight, inst.id), s.calls[id].volume, device)
    case Detached(id) => Holds(s, id, Unpublish, true)
    case End(id) => id in s.calls && !s.calls[id].phase.Holding?
  }

  function To(s: State, id: nat, phase: Phase): State
    requires id in s.calls
  {
    s.(calls := s.calls[id := s.calls[id].(phase := phase)])
  }

  /** Release the device without force if it is not tainted, or with force, and finish the call. */
  function ReleaseAndFinish(s: State, id: nat): State
    requires id in s.calls && s.calls[id].phase.Holding?
  {
    var d := s.calls[id].phase.device;
    var after := Release(s.inFlight, d);
    To(s, id, Finished).(
      inFlight := after,
      abandoned := if after == s.inFlight then s.abandoned else s.abandoned - {(d.node, d.volume)})
  }

  function Step(s: State, e: Event): State
    requires Enabled(s, e)
  {
    match e
    case Begin(id, kind, volume, node) =>
      s.(guard := s.guard + {Key(volume, node)}, calls := s.calls[id := Call(kind, volume, node, Begun)])
    case NewDevice(id, inst, bad, numCards, answer) =>
      var t := s.(badNames := if bad == |s.badNames| then s.badNames + [{}] else s.badNames);
      if answer.None? then To(t, id, Finished)
      else To(t, id, Holding(answer.value, bad, answer.value.already)).(inFlight := Reserve(s.inFlight, answer))
    case AttachRefused(id, deviceInUse) =>
      var p := s.calls[id].phase;
      var t := if deviceInUse && p.bad < |s.badNames|
               then s.(badNames := s.badNames[p.bad := s.badNames[p.bad] + {p.device.path}]) else s;
      ReleaseAndFinish(t, id)
    case AttachAccepted(id) =>
      var p := s.calls[id].phase;
      var t := if p.bad < |s.badNames|
               then s.(badNames := s.badNames[p.bad := s.badNames[p.bad] - {p.device.path}]) else s;
      To(t, id, p.(asked := true))
    case WaitSucceeded(id) => ReleaseAndFinish(s, id)
    case WaitFailed(id) =>
      var d := s.calls[id].phase.device;
      To(s, id, Finished).(
        abandoned := if d.volume in On(s.inFlight, d.node) then s.abandoned + {(d.node, d.volume)} else s.abandoned)
    case GetDevice(id, inst, device) => To(s, id, Holding(device, 0, true))
    case Detached(id) => ReleaseAndFinish(s, id)
    case End(id) =>
      var c := s.calls[id];
      s.(guard := s.guard - {Key(c.volume, c.node)}, calls := s.calls - {id})
  }

  ghost function Run(s: State, es: seq<Event>): Option<State> {
    if es == [] then Some(s)
    else
      var before := Run(s, es[..|es| - 1]);
      if before.Some? && Enabled(before.value, es[|es| - 1]) then Some(Step(before.value, es[|es| - 1])) else None
  }

  // ----- Invariant -----

  function KeyOf(c: Call): string {
    Key(c.volume, c.node)
  }

  /** The guard holds exactly the keys of the live calls, and no two of these share a key. */
  ghost predicate GuardMatches(s: State) {
    && (forall id :: id in s.calls ==> KeyOf(s.calls[id]) in s.guard)
    && (forall key :: key in s.guard ==> exists id :: id in s.calls && KeyOf(s.calls[id]) == key)
    && (forall i, j :: i in s.calls && j in s.calls && KeyOf(s.calls[i]) == KeyOf(s.calls[j]) ==> i == j)
  }

  /** Reservations on a node: legal names, none held twice. */
  ghost predicate GoodNames(a: Attaching) {
    NoSharedNames(a) && forall v :: v in a ==> Legal(a[v].name)
  }

  ghost predicate NamesMatch(s: State) {
    && (forall node :: GoodNames(On(s.inFlight, node)))
    && (forall i, name :: 0 <= i < |s.badNames| && name in s.badNames[i] ==> Legal(name))
  }

  /** A call that holds a fresh device holds the reservation for it. */
  predicate HandleMatches(s: State, c: Call) {
    c.phase.Holding? ==>
      var d := c.phase.device;
      && d.node == c.node && d.volume == c.volume
      && (!c.phase.asked ==> !d.already)
      && (!d.already && c.kind.Publish? ==>
            && Legal(d.path)
            && c.volume in On(s.inFlight, c.node)
            && On(s.inFlight, c.node)[c.volume] == Entry(d.path, d.card))
  }

  ghost predicate HandlesMatch(s: State) {
    forall id :: id in s.calls ==> HandleMatches(s, s.calls[id])
  }

  ghost predicate Inv(s: State) {
    GuardMatches(s) && NamesMatch(s) && HandlesMatch(s)
  }

  /** The calls keep their identities: only their phases differ. */
  predicate SameCalls(s: State, t: State) {
    && t.guard == s.guard && t.calls.Keys == s.calls.Keys
    && forall id :: id in s.calls ==> KeyOf(t.calls[id]) == KeyOf(s.calls[id])
  }

  lemma SameCallsKeepGuard(s: State, t: State)
    requires GuardMatches(s) && SameCalls(s, t)
    ensures GuardMatches(t)
  {
    forall key | key in t.guard ensures exists id :: id in t.calls && KeyOf(t.calls[id]) == key {
      var id :| id in s.calls && KeyOf(s.calls[id]) == key;
      assert id in t.calls && KeyOf(t.calls[id]) == key;
    }
  }

  lemma BeginOrEndKeepsGuard(s: State, e: Event)
    requires Enabled(s, e) && GuardMatches(s) && (e.Begin? || e.End?)
    ensures GuardMatches(Step(s, e))
  {
    var t := Step(s, e);
    forall key | key in t.guard ensures exists id :: id in t.calls && KeyOf(t.calls[id]) == key {
      if key in s.guard {
        var id :| id in s.calls && KeyOf(s.calls[id]) == key;
        assert id in t.calls && KeyOf(t.calls[id]) == key;
      } else {
        assert e.id in t.calls && KeyOf(t.calls[e.id]) == key;
      }
    }
  }

  lemma OthersKeepCalls(s: State, e: Event)
    requires Enabled(s, e) && !e.Begin? && !e.End?
    ensures SameCalls(s, Step(s, e))
  {
    var t := Step(s, e);
    assert e.id in s.calls && t.guard == s.guard;
    assert t.calls == s.calls[e.id := s.calls[e.id].(phase := t.calls[e.id].phase)];
  }

  lemma StepGuard(s: State, e: Event)
    requires Enabled(s, e) && GuardMatches(s)
    ensures GuardMatches(Step(s, e))
  {
    if e.Begin? || e.End? {
      BeginOrEndKeepsGuard(s, e);
    } else {
      OthersKeepCalls(s, e);
      SameCallsKeepGuard(s, Step(s, e));
    }
  }

  /** An event changes the reservations of one node and one volume at most. */
  lemma StepTouchesOwnReservation(s: State, e: Event, node: string, v: string)
    requires Enabled(s, e) && HandlesMatch(s)
    requires e.id !in s.calls || s.calls[e.id].node != node || s.calls[e.id].volume != v
    ensures v in On(Step(s, e).inFlight, node) <==> v in On(s.inFlight, node)
    ensures v in On(s.inFlight, node) ==> On(Step(s, e).inFlight, node)[v] == On(s.inFlight, node)[v]
  {
    if e.id in s.calls { assert HandleMatches(s, s.calls[e.id]); }
  }

  lemma ReserveKeepsNames(inFlight: DeviceManager.InFlight, d: Device, node: string)
    requires GoodNames(On(inFlight, node)) && !d.already && Legal(d.path)
    requires forall v :: v in On(inFlight, d.node) ==> On(inFlight, d.node)[v].name != d.path
    ensures GoodNames(On(Reserve(inFlight, Some(d)), node))
  {
  }

  lemma ReleaseKeepsNames(inFlight: DeviceManager.InFlight, d: Device, node: string)
    requires GoodNames(On(inFlight, node))
    ensures GoodNames(On(Release(inFlight, d), node))
  {
  }

  lemma StepReservations(s: State, e: Event, node: string)
    requires Enabled(s, e) && Inv(s)
    ensures GoodNames(On(Step(s, e).inFlight, node))
  {
    if e.NewDevice? {
      if e.answer.Some? && !e.answer.value.already {
        var a := On(s.inFlight, e.inst.id);
        FreshNameIsLegalAndFree(e.inst, a, s.calls[e.id].volume, BadNames(s, e.bad), e.numCards, e.answer.value);
        ReserveKeepsNames(s.inFlight, e.answer.value, node);
      }
    } else if e.AttachRefused? || e.WaitSucceeded? || e.Detached? {
      ReleaseKeepsNames(s.inFlight, s.calls[e.id].phase.device, node);
    }
  }

  lemma StepNames(s: State, e: Event)
    requires Enabled(s, e) && Inv(s)
    ensures NamesMatch(Step(s, e))
  {
    var t := Step(s, e);
    forall node ensures GoodNames(On(t.inFlight, node)) { StepReservations(s, e, node); }
    forall i, name | 0 <= i < |t.badNames| && name in t.badNames[i] ensures Legal(name) {
      if e.AttachRefused? { assert HandleMatches(s, s.calls[e.id]); }
    }
  }

  lemma OwnHandleMatches(s: State, e: Event)
    requires Enabled(s, e) && Inv(s) && e.id in s.calls && e.id in Step(s, e).calls
    ensures HandleMatches(Step(s, e), Step(s, e).calls[e.id])
  {
    var c := s.calls[e.id];
    assert HandleMatches(s, c);
    if e.NewDevice? && e.answer.Some? && !e.answer.value.already {
      FreshNameIsLegalAndFree(
        e.inst, On(s.inFlight, e.inst.id), c.volume, BadNames(s, e.bad), e.numCards, e.answer.value);
    }
  }

  lemma OtherCallsStay(s: State, e: Event, id: nat)
    requires Enabled(s, e) && id in s.calls && id != e.id
    ensures id in Step(s, e).calls && Step(s, e).calls[id] == s.calls[id]
  {
  }

  lemma OtherHandleMatches(s: State, e: Event, id: nat)
    requires Enabled(s, e) && GuardMatches(s) && HandlesMatch(s) && id in s.calls && id != e.id
    ensures id in Step(s, e).calls && HandleMatches(Step(s, e), Step(s, e).calls[id])
  {
    var c := s.calls[id];
    assert HandleMatches(s, c);
    assert e.id in s.calls ==> KeyOf(s.calls[e.id]) != KeyOf(c);
    StepTouchesOwnReservation(s, e, c.node, c.volume);
    OtherCallsStay(s, e, id);
  }

  lemma StepHandles(s: State, e: Event)
    requires Enabled(s, e) && Inv(s)
    ensures HandlesMatch(Step(s, e))
  {
    var t := Step(s, e);
    forall id | id in t.calls ensures HandleMatches(t, t.calls[id]) {
      if id != e.id { OtherHandleMatches(s, e, id); }
      else if e.id in s.calls { OwnHandleMatches(s, e); }
    }
  }

  /** The invariant holds after every run, from every state in which it holds. */
  lemma {:induction false} RunKeepsInvariant(s: State, es: seq<Event>)
    requires Inv(s) && Run(s, es).Some?
    ensures Inv(Run(s, es).value)
  {
    if es != [] {
      var before, e := Run(s, es[..|es| - 1]).value, es[|es| - 1];
      RunKeepsInvariant(s, es[..|es| - 1]);
      StepGuard(before, e);
      StepNames(before, e);
      StepHandles(before, e);
    }
  }

  lemma InitialInvariant()
    ensures Inv(INIT)
  {
  }

  // ----- Theorems over all runs -----

  /**
   * No two volumes in flight on a node ever hold the same device name, so GetNames is an exact inverse of
   * the reservations whatever the map order.
   */
  lemma NamesAreNeverShared(es: seq<Event>, node: string)
    requires Run(INIT, es).Some?
    ensures var a := On(Run(INIT, es).value.inFlight, node);
            && NoSharedNames(a)
            && forall names :: AreNames(a, names) ==> forall v :: v in a ==> names[a[v].name] == v
  {
    InitialInvariant();
    RunKeepsInvariant(INIT, es);
    var a := On(Run(INIT, es).value.inFlight, node);
    assert GoodNames(a);
    NamesInvertIffUnshared(a);
  }

  /** At most one call at a time holds a device for a given volume and node. */
  lemma OneHandlePerVolumeAndNode(es: seq<Event>, i: nat, j: nat)
    requires Run(INIT, es).Some?
    requires var calls := Run(INIT, es).value.calls;
             && i in calls && j in calls && calls[i].phase.Holding? && calls[j].phase.Holding?
             && calls[i].phase.device.volume == calls[j].phase.device.volume
             && calls[i].phase.device.node == calls[j].phase.device.node
    ensures i == j
  {
    InitialInvariant();
    RunKeepsInvariant(INIT, es);
    var s := Run(INIT, es).value;
    assert HandleMatches(s, s.calls[i]) && HandleMatches(s, s.calls[j]);
  }

  /** All live calls have ordinary identifiers; the names of what is created may be anything. */
  ghost predicate OrdinaryIds(s: State) {
    forall id :: id in s.calls ==> OrdinaryId(s.calls[id])
  }

  predicate OrdinaryId(c: Call) {
    match c.kind
    case Publish => IsVolumeId(c.volume) && IsNodeId(c.node)
    case Unpublish => IsVolumeId(c.volume) && IsNodeId(c.node)
    case DeleteVolume => IsVolumeId(c.volume) && c.node == ""
    case DeleteSnapshot => IsSnapshotId(c.volume) && c.node == ""
    case _ => c.node == ""
  }

  /** The call works on this volume and node, or creates something by the name of both together. */
  predicate StandsInTheWay(c: Call, volume: string, node: string) {
    if OnNode(c.kind) then c.volume == volume && c.node == node
    else (c.kind.CreateVolume? || c.kind.CreateSnapshot?) && c.volume == Key(volume, node)
  }

  lemma SameKeyStandsInTheWay(c: Call, volume: string, node: string)
    requires IsVolumeId(volume) && IsNodeId(node) && OrdinaryId(c)
    ensures KeyOf(c) == Key(volume, node) <==> StandsInTheWay(c, volume, node)
  {
    if OnNode(c.kind) {
      if KeyOf(c) == Key(volume, node) { KeyIsInjective(c.volume, c.node, volume, node); }
    } else if c.kind.DeleteVolume? || c.kind.DeleteSnapshot? {
      DeletesHaveOtherKeys(volume, node, c.volume);
    } else {
      assert KeyOf(c) == c.volume;
    }
  }

  /**
   * A call is turned away as already pending exactly when a live call has the same key. On volume, snapshot
   * and node IDs of the ordinary forms, that is exactly when a live publish or unpublish works on the same volume
   * and node, as the Concurrency section of the CSI specification wants it, or a live call creates a volume or
   * snapshot by the name of the volume's and the node's ID together.
   */
  lemma TurnedAwayIffPending(es: seq<Event>, volume: string, node: string)
    requires Run(INIT, es).Some?
    ensures var s := Run(INIT, es).value;
            Key(volume, node) in s.guard <==> exists id :: id in s.calls && KeyOf(s.calls[id]) == Key(volume, node)
    ensures var s := Run(INIT, es).value;
            IsVolumeId(volume) && IsNodeId(node) && OrdinaryIds(s) ==>
              (Key(volume, node) in s.guard <==> exists id :: id in s.calls && StandsInTheWay(s.calls[id], volume, node))
  {
    InitialInvariant();
    RunKeepsInvariant(INIT, es);
    var s := Run(INIT, es).value;
    if IsVolumeId(volume) && IsNodeId(node) && OrdinaryIds(s) {
      forall id | id in s.calls
        ensures KeyOf(s.calls[id]) == Key(volume, node) <==> StandsInTheWay(s.calls[id], volume, node)
      {
        SameKeyStandsInTheWay(s.calls[id], volume, node);
      }
    }
  }

  /** It happens: while a volume named vol-1i-1 is being created, nothing can attach vol-1 to i-1. */
  lemma CreateMayStandInTheWay()
    ensures var run := Run(INIT, [Begin(0, CreateVolume, "vol-1i-1", "")]);
            && run.Some? && OrdinaryIds(run.value) && IsVolumeId("vol-1") && IsNodeId("i-1")
            && Key("vol-1", "i-1") in run.value.guard
            && forall id :: id in run.value.calls ==> !OnNode(run.value.calls[id].kind)
  {
    var e := Begin(0, CreateVolume, "vol-1i-1", "");
    assert [e][..0] == [] && Run(INIT, []) == Some(INIT);
    assert Run(INIT, [e]) == Some(Step(INIT, e));
    assert Key("vol-1i-1", "") == "vol-1i-1" == Key("vol-1", "i-1");
  }

  /** After every run, a fresh device leaves balanced card loads balanced. */
  lemma AllocationsKeepBalance(es: seq<Event>, e: Event)
    requires Run(INIT, es).Some? && e.NewDevice? && Enabled(Run(INIT, es).value, e)
    requires e.answer.Some? && !e.answer.value.already && e.numCards > 1
    requires var s := Run(INIT, es).value;
             var a := On(s.inFlight, e.inst.id);
             && !ShowsUnnamed(e.inst, s.calls[e.id].volume)
             && NotCrowded(e.inst, a, e.numCards) && Balanced(e.inst, a, e.numCards)
             && forall c :: Load(e.inst, a, c) >= 1 ==> 0 <= c < e.numCards
    ensures Balanced(e.inst, On(Step(Run(INIT, es).value, e).inFlight, e.inst.id), e.numCards)
  {
    InitialInvariant();
    RunKeepsInvariant(INIT, es);
    var s := Run(INIT, es).value;
    var a := On(s.inFlight, e.inst.id);
    NamesAreNonEmpty(a);
    NewDeviceKeepsBalance(e.inst, a, s.calls[e.id].volume, BadNames(s, e.bad), e.numCards, e.answer.value);
  }

  lemma NamesAreNonEmpty(a: Attaching)
    requires GoodNames(a)
    ensures NamesNonEmpty(a)
  {
    forall v | v in a ensures a[v].name != "" { LegalIsNotEmpty(a[v].name); }
  }

  /** After any run, a fresh device has a legal name, not reserved and not shown; failure means that all 127 are taken. */
  lemma AllocationsAreLegal(es: seq<Event>, e: Event)
    requires Run(INIT, es).Some? && e.NewDevice? && Enabled(Run(INIT, es).value, e)
    ensures var a := On(Run(INIT, es).value.inFlight, e.inst.id);
            && (e.answer.Some? && !e.answer.value.already ==>
                  && Legal(e.answer.value.path)
                  && (forall v :: v in a ==> a[v].name != e.answer.value.path)
                  && forall i :: 0 <= i < |e.inst.mappings| ==> ToString(e.inst.mappings[i].name) != e.answer.value.path)
            && (e.answer.None? ==> forall i: nat :: i < NAME_COUNT ==> Taken(e.inst, a, Name(i)))
  {
    InitialInvariant();
    RunKeepsInvariant(INIT, es);
    var s := Run(INIT, es).value;
    var a, volume, bad := On(s.inFlight, e.inst.id), s.calls[e.id].volume, BadNames(s, e.bad);
    if e.answer.Some? {
      if !e.answer.value.already {
        FreshNameIsLegalAndFree(e.inst, a, volume, bad, e.numCards, e.answer.value);
        forall i | 0 <= i < |e.inst.mappings| ensures ToString(e.inst.mappings[i].name) != e.answer.value.path {
          FreshNameIsNotShown(e.inst, a, volume, bad, e.numCards, e.answer.value, i);
        }
      }
    } else {
      var inUse, path :| IsInUse(e.inst, a, inUse) && IsPath(inUse, volume, path)
                         && Answers(e.inst, a, volume, bad, e.numCards, inUse, path, None);
      FailsIffAllInUse(inUse.Keys, bad);
      forall i: nat | i < NAME_COUNT ensures Taken(e.inst, a, Name(i)) {
        AttachedMeans(e.inst.mappings, Name(i));
        assert Name(i) in inUse;
      }
    }
  }

  /** The instance shows the name, or a volume has reserved it. */
  ghost predicate Taken(inst: Instance, a: Attaching, name: string) {
    || (exists i :: 0 <= i < |inst.mappings| && ToString(inst.mappings[i].name) == name)
    || exists v :: v in a && a[v].name == name
  }

  // ----- A failed wait keeps its name reserved -----

  /** A live attach holds a fresh device for the volume on the node. */
  predicate OwnedBy(s: State, node: string, volume: string, id: nat) {
    && id in s.calls && s.calls[id].volume == volume && s.calls[id].node == node
    && s.calls[id].kind.Publish? && s.calls[id].phase.Holding? && !s.calls[id].phase.device.already
  }

  /** Whoever owns a reservation after an event that is not its own owned it before, and the reverse. */
  lemma OthersKeepOwning(s: State, e: Event, node: string, volume: string, id: nat)
    requires Enabled(s, e) && id != e.id
    ensures OwnedBy(Step(s, e), node, volume, id) <==> OwnedBy(s, node, volume, id)
  {
  }

  /** The volume's reservation has this name, and no live call could release it as its own. */
  ghost predicate Kept(s: State, node: string, volume: string, name: string) {
    && volume in On(s.inFlight, node) && On(s.inFlight, node)[volume].name == name
    && forall id :: !OwnedBy(s, node, volume, id)
  }

  /**
   * A detach of the volume reaches its forced release, an attach of it succeeds, or an attach of it works with
   * a description that shows the volume without a device name.
   */
  predicate Clears(s: State, e: Event, node: string, volume: string) {
    && (e.WaitSucceeded? || e.Detached? || (e.NewDevice? && EbsPresent(e.inst) && ShowsUnnamed(e.inst, volume)))
    && e.id in s.calls && s.calls[e.id].volume == volume && s.calls[e.id].node == node
  }

  lemma FailedWaitKeeps(s: State, e: Event)
    requires Inv(s) && e.WaitFailed? && Enabled(s, e)
    requires var c := s.calls[e.id]; c.volume in On(s.inFlight, c.node)
    ensures var c := s.calls[e.id];
            Kept(Step(s, e), c.node, c.volume, On(s.inFlight, c.node)[c.volume].name)
  {
    var c := s.calls[e.id];
    forall id: nat ensures !OwnedBy(Step(s, e), c.node, c.volume, id) {
      if id in s.calls && id != e.id { assert KeyOf(s.calls[id]) != KeyOf(c); }
    }
  }

  lemma OwnStepKeeps(s: State, e: Event, node: string, volume: string, name: string)
    requires Inv(s) && Enabled(s, e) && Kept(s, node, volume, name)
    requires !Clears(s, e, node, volume)
    requires e.id in s.calls && s.calls[e.id].volume == volume && s.calls[e.id].node == node
    ensures On(Step(s, e).inFlight, node) == On(s.inFlight, node) && !OwnedBy(Step(s, e), node, volume, e.id)
  {
    assert HandleMatches(s, s.calls[e.id]);
    assert !OwnedBy(s, node, volume, e.id);
    if e.NewDevice? && e.answer.Some? { RecognisesKept(s, e); }
  }

  lemma OtherStepKeeps(s: State, e: Event, node: string, volume: string, name: string)
    requires Inv(s) && Enabled(s, e) && Kept(s, node, volume, name)
    requires e.id !in s.calls || s.calls[e.id].volume != volume || s.calls[e.id].node != node
    ensures volume in On(Step(s, e).inFlight, node) && On(Step(s, e).inFlight, node)[volume].name == name
    ensures !OwnedBy(Step(s, e), node, volume, e.id)
  {
    StepTouchesOwnReservation(s, e, node, volume);
  }

  lemma StepKeeps(s: State, e: Event, node: string, volume: string, name: string)
    requires Inv(s) && Enabled(s, e) && Kept(s, node, volume, name)
    requires !Clears(s, e, node, volume)
    ensures Kept(Step(s, e), node, volume, name)
  {
    if e.id in s.calls && s.calls[e.id].volume == volume && s.calls[e.id].node == node {
      OwnStepKeeps(s, e, node, volume, name);
    } else {
      OtherStepKeeps(s, e, node, volume, name);
    }
    forall id: nat ensures !OwnedBy(Step(s, e), node, volume, id) {
      if id != e.id { OthersKeepOwning(s, e, node, volume, id); }
    }
  }

  lemma RecognisesKept(s: State, e: Event)
    requires Inv(s) && e.NewDevice? && Enabled(s, e) && e.answer.Some?
    requires !ShowsUnnamed(e.inst, s.calls[e.id].volume)
    requires s.calls[e.id].volume in On(s.inFlight, e.inst.id)
    ensures e.answer.value.already
  {
    var a := On(s.inFlight, e.inst.id);
    assert GoodNames(a);
    NamesAreNonEmpty(a);
    ReservedVolumeIsRecognised(
      e.inst, a, s.calls[e.id].volume, BadNames(s, e.bad), e.numCards, e.answer.value);
  }

  /** No event of the run clears the reservation. */
  ghost predicate NeverCleared(s: State, es: seq<Event>, node: string, volume: string)
    requires Run(s, es).Some?
  {
    es == [] ||
    var before, e := es[..|es| - 1], es[|es| - 1];
    && NeverCleared(s, before, node, volume)
    && !Clears(Run(s, before).value, e, node, volume)
  }

  lemma {:induction false} RunKeeps(s: State, es: seq<Event>, node: string, volume: string, name: string)
    requires Inv(s) && Kept(s, node, volume, name)
    requires Run(s, es).Some? && NeverCleared(s, es, node, volume)
    ensures Kept(Run(s, es).value, node, volume, name) && Inv(Run(s, es).value)
  {
    RunKeepsInvariant(s, es);
    if es != [] {
      var before := es[..|es| - 1];
      RunKeeps(s, before, node, volume, name);
      StepKeeps(Run(s, before).value, es[|es| - 1], node, volume, name);
    }
  }

  /** Another volume is handed the name as a device of its own, not yet attached anywhere. */
  ghost predicate HandsAnew(s: State, attempt: Event, node: string, volume: string, name: string) {
    HandsToOther(s, attempt, node, volume, name) && !attempt.answer.value.already
  }

  /** After some continuation that does not clear the volume's reservation, another volume has reserved the name or can. */
  ghost predicate MayGoToOther(s: State, node: string, volume: string, name: string) {
    exists later :: Run(s, later).Some? && NeverCleared(s, later, node, volume)
                    && ReservableByOther(Run(s, later).value, node, volume, name)
  }

  ghost predicate ReservableByOther(s: State, node: string, volume: string, name: string) {
    || (exists other :: other in On(s.inFlight, node) && other != volume && On(s.inFlight, node)[other].name == name)
    || (exists attempt :: HandsAnew(s, attempt, node, volume, name))
  }

  /** Another volume holds a reservation of the name on the node, or is handed the name by NewDevice. */
  ghost predicate HandedToOther(s: State, node: string, volume: string, name: string) {
    || (exists other :: other in On(s.inFlight, node) && other != volume && On(s.inFlight, node)[other].name == name)
    || (exists attempt :: HandsToOther(s, attempt, node, volume, name))
  }

  ghost predicate HandsToOther(s: State, attempt: Event, node: string, volume: string, name: string) {
    && attempt.NewDevice? && Enabled(s, attempt) && attempt.inst.id == node
    && s.calls[attempt.id].volume != volume
    && attempt.answer.Some? && attempt.answer.value.path == name
  }

  /** Through every continuation that does not clear the volume's reservation, no other volume gets the name. */
  ghost predicate Withheld(s: State, node: string, volume: string, name: string) {
    forall later :: Run(s, later).Some? && NeverCleared(s, later, node, volume) ==>
      !HandedToOther(Run(s, later).value, node, volume, name)
  }

  lemma KeptIsNotHanded(s: State, node: string, volume: string, name: string)
    requires Inv(s) && Kept(s, node, volume, name)
    ensures !HandedToOther(s, node, volume, name)
  {
    var a := On(s.inFlight, node);
    assert GoodNames(a);
    LegalIsNotEmpty(name);
    forall attempt ensures !HandsToOther(s, attempt, node, volume, name) {
      if HandsToOther(s, attempt, node, volume, name) {
        ReservedNameIsWithheld(
          attempt.inst, a, s.calls[attempt.id].volume, BadNames(s, attempt.bad), attempt.numCards,
          attempt.answer.value, volume);
      }
    }
  }

  lemma LegalIsNotEmpty(name: string)
    requires Legal(name)
    ensures name != ""
  {
    var i: nat :| i < NAME_COUNT && Name(i) == name;
    SeriesShows(i);
  }

  lemma KeptIsWithheld(s: State, node: string, volume: string, name: string)
    requires Inv(s) && Kept(s, node, volume, name)
    ensures Withheld(s, node, volume, name)
  {
    forall later | Run(s, later).Some? && NeverCleared(s, later, node, volume)
      ensures !HandedToOther(Run(s, later).value, node, volume, name)
    {
      RunKeeps(s, later, node, volume, name);
      KeptIsNotHanded(Run(s, later).value, node, volume, name);
    }
  }

  lemma {:induction false} LongestOf(keys: set<string>) returns (n: nat)
    ensures forall key :: key in keys ==> |key| <= n
  {
    if keys == {} {
      n := 0;
    } else {
      var first :| first in keys;
      var rest := LongestOf(keys - {first});
      n := if |first| > rest then |first| else rest;
      forall key | key in keys ensures |key| <= n {
        if key != first { assert key in keys - {first}; }
      }
    }
  }

  lemma {:induction false} AboveAll(ids: set<nat>) returns (n: nat)
    ensures forall id :: id in ids ==> id < n
  {
    if ids == {} {
      n := 0;
    } else {
      HasId(ids);
      var first :| first in ids;
      var rest := AboveAll(ids - {first});
      n := if first >= rest then first + 1 else rest;
      forall id | id in ids ensures id < n {
        if id != first { assert id in ids - {first}; }
      }
    }
  }

  lemma HasId(ids: set<nat>)
    requires ids != {}
    ensures exists id :: id in ids
  {
    if forall id :: id !in ids { assert false; }
  }

  /** An instance description that shows one volume under one name. */
  function Showing(node: string, volume: string, name: string): Instance {
    Instance(node, [Mapping(Some(name), Some(Ebs(Some(volume), None)))])
  }

  lemma ShowingIsAnswered(a: Attaching, node: string, volume: string, name: string)
    requires name != "" && forall v :: v in a ==> a[v].name != name
    ensures var inst := Showing(node, volume, name);
            EbsPresent(inst) && MayReturn(inst, a, volume, {}, 1, Some(Device(node, name, volume, true, None)))
  {
    var inst, names := Showing(node, volume, name), AllNames(a);
    var inUse := Attached(inst.mappings) + names;
    assert inst.mappings[..0] == [];
    assert Attached(inst.mappings) == map[name := volume];
    assert name !in names;
    assert IsInUse(inst, a, inUse) && IsPath(inUse, volume, name);
    assert CardOfExisting(inst.mappings, volume) == None;
    assert Answers(inst, a, volume, {}, 1, inUse, name, Some(Device(node, name, volume, true, None)));
  }

  /** An instance description that shows every legal name but one, and no volumes. */
  function ShowingAllBut(node: string, k: nat): Instance {
    Instance(node, seq(NAME_COUNT, i requires 0 <= i < NAME_COUNT =>
                         Mapping(Some(if i == k then "none" else Name(i)), Some(Ebs(None, None)))))
  }

  lemma {:induction false} AttachedNames(mappings: seq<Mapping>, name: string)
    requires forall i :: 0 <= i < |mappings| ==> mappings[i].ebs == Some(Ebs(None, None))
    ensures name in Attached(mappings) <==> exists i :: 0 <= i < |mappings| && ToString(mappings[i].name) == name
    ensures name in Attached(mappings) ==> Attached(mappings)[name] == ""
  {
    if mappings != [] {
      var last := |mappings| - 1;
      AttachedNames(mappings[..last], name);
      assert forall i :: 0 <= i < last ==> mappings[..last][i] == mappings[i];
    }
  }

  /** Seen like that, the one name left is the first clean one. */
  lemma OnlyNameLeft(node: string, k: nat, names: map<string, string>)
    requires k < NAME_COUNT && Name(k) !in names
    ensures var used := Attached(ShowingAllBut(node, k).mappings) + names; FirstClean(used.Keys, {}, 0) == k
  {
    var mappings := ShowingAllBut(node, k).mappings;
    var used := Attached(mappings) + names;
    forall i: nat | i < NAME_COUNT ensures Name(i) in used <==> i != k {
      AttachedNames(mappings, Name(i));
      SeriesShows(i);
      if i != k {
        assert ToString(mappings[i].name) == Name(i);
      } else if j :| 0 <= j < |mappings| && ToString(mappings[j].name) == Name(k) {
        if j < k { NamesAreDistinct(j, k); } else if k < j { NamesAreDistinct(k, j); }
      }
    }
    FirstCleanIsFirst(used.Keys, {}, 0);
    assert Clean(used.Keys, {}, k);
  }

  lemma LeftNameIsAnswered(a: Attaching, node: string, other: string, k: nat)
    requires k < NAME_COUNT && other != "" && other !in a && forall v :: v in a ==> a[v].name != Name(k)
    ensures var inst := ShowingAllBut(node, k);
            EbsPresent(inst) && MayReturn(inst, a, other, {}, 1, Some(Device(node, Name(k), other, false, None)))
  {
    var inst, names := ShowingAllBut(node, k), AllNames(a);
    var inUse := Attached(inst.mappings) + names;
    OnlyNameLeft(node, k, names);
    forall n | n in inUse ensures inUse[n] != other { AttachedNames(inst.mappings, n); }
    assert IsInUse(inst, a, inUse) && IsPath(inUse, other, "");
    assert Answers(inst, a, other, {}, 1, inUse, "", Some(Device(node, Name(k), other, false, None)));
  }

  /** A volume and a call that nobody has heard of. */
  lemma SomebodyNew(s: State, node: string, volume: string) returns (begin: Event)
    ensures begin.Begin? && begin.kind == Publish && begin.node == node && Enabled(s, begin)
    ensures begin.volume != "" && begin.volume != volume && begin.volume !in On(s.inFlight, node)
    ensures Run(s, [begin]) == Some(Step(s, begin)) && NeverCleared(s, [begin], node, volume)
  {
    var longest := LongestOf(s.guard + {volume} + On(s.inFlight, node).Keys);
    var id := AboveAll(s.calls.Keys);
    var other := seq(longest + 1, _ => 'v');
    begin := Begin(id, Publish, other, node);
    assert |Key(other, node)| > longest && volume in s.guard + {volume} + On(s.inFlight, node).Keys;
    assert Key(other, node) !in s.guard && other !in On(s.inFlight, node).Keys;
    assert [begin][..0] == [] && Run(s, []) == Some(s);
    assert NeverCleared(s, [], node, volume) && !Clears(s, begin, node, volume);
  }

  /** A name nobody has reserved is handed to another volume as soon as a description shows it there. */
  lemma UnreservedIsNotWithheld(s: State, node: string, volume: string, name: string)
    requires name != "" && forall v :: v in On(s.inFlight, node) ==> On(s.inFlight, node)[v].name != name
    ensures !Withheld(s, node, volume, name)
  {
    var begin := SomebodyNew(s, node, volume);
    var other, t := begin.volume, Step(s, begin);
    ShowingIsAnswered(On(s.inFlight, node), node, other, name);
    var attempt := NewDevice(
      begin.id, Showing(node, other, name), |t.badNames|, 1, Some(Device(node, name, other, true, None)));
    assert HandsToOther(t, attempt, node, volume, name);
  }

  /** A legal name nobody has reserved may be reserved by another volume, as a device of its own. */
  lemma UnreservedMayGoToOther(s: State, node: string, volume: string, k: nat)
    requires k < NAME_COUNT && forall v :: v in On(s.inFlight, node) ==> On(s.inFlight, node)[v].name != Name(k)
    ensures MayGoToOther(s, node, volume, Name(k))
  {
    var begin := SomebodyNew(s, node, volume);
    var other, t := begin.volume, Step(s, begin);
    LeftNameIsAnswered(On(s.inFlight, node), node, other, k);
    var attempt := NewDevice(
      begin.id, ShowingAllBut(node, k), |t.badNames|, 1, Some(Device(node, Name(k), other, false, None)));
    assert HandsAnew(t, attempt, node, volume, Name(k));
    assert ReservableByOther(Run(s, [begin]).value, node, volume, Name(k));
  }

  /** Only legal names can be reserved. */
  lemma IllegalNeverGoesToOther(s: State, node: string, volume: string, name: string)
    requires Inv(s) && !Legal(name)
    ensures !MayGoToOther(s, node, volume, name)
  {
    forall later | Run(s, later).Some? ensures !ReservableByOther(Run(s, later).value, node, volume, name) {
      RunKeepsInvariant(s, later);
      var t := Run(s, later).value;
      assert GoodNames(On(t.inFlight, node));
      forall attempt ensures !HandsAnew(t, attempt, node, volume, name) {
        if HandsAnew(t, attempt, node, volume, name) {
          FreshNameIsLegalAndFree(attempt.inst, On(t.inFlight, node), t.calls[attempt.id].volume,
                                  BadNames(t, attempt.bad), attempt.numCards, attempt.answer.value);
        }
      }
    }
  }

  lemma WithheldNeverGoesToOther(s: State, node: string, volume: string, name: string)
    requires Withheld(s, node, volume, name)
    ensures !MayGoToOther(s, node, volume, name)
  {
    forall later | Run(s, later).Some? && NeverCleared(s, later, node, volume)
      ensures !ReservableByOther(Run(s, later).value, node, volume, name)
    {
      assert !HandedToOther(Run(s, later).value, node, volume, name);
    }
  }

  lemma UnheldMayGoToOther(s: State, node: string, volume: string, name: string)
    requires Legal(name) && !(volume in On(s.inFlight, node) && On(s.inFlight, node)[volume].name == name)
    ensures MayGoToOther(s, node, volume, name)
  {
    var a := On(s.inFlight, node);
    var k: nat :| k < NAME_COUNT && Name(k) == name;
    if other :| other in a && a[other].name == name {
      assert Run(s, []) == Some(s) && NeverCleared(s, [], node, volume);
      assert ReservableByOther(Run(s, []).value, node, volume, name);
    } else {
      UnreservedMayGoToOther(s, node, volume, k);
    }
  }

  /**
   * The name that a failed wait tainted is withheld from every other volume on the node, through every
   * continuation in which no detach of the volume reaches its forced release and no retry of its attach
   * succeeds, exactly when the volume holds a reservation of that name. For a fresh device it always does;
   * for one recognised in an instance description it need not. Whatever name it holds is withheld. And a name
   * not withheld may even be reserved by another volume, as a device of its own, exactly if it is a legal one.
   */
  lemma TaintedNameIsWithheldIff(es: seq<Event>, e: Event)
    requires Run(INIT, es).Some? && e.WaitFailed? && Enabled(Run(INIT, es).value, e)
    ensures var s := Run(INIT, es).value;
            var c := s.calls[e.id];
            var a := On(s.inFlight, c.node);
            && (Withheld(Step(s, e), c.node, c.volume, c.phase.device.path)
                <==> c.volume in a && a[c.volume].name == c.phase.device.path)
            && (!c.phase.device.already ==> c.volume in a && a[c.volume].name == c.phase.device.path)
            && (c.volume in a ==> Withheld(Step(s, e), c.node, c.volume, a[c.volume].name))
            && (MayGoToOther(Step(s, e), c.node, c.volume, c.phase.device.path)
                <==> Legal(c.phase.device.path) && !(c.volume in a && a[c.volume].name == c.phase.device.path))
  {
    InitialInvariant();
    RunKeepsInvariant(INIT, es);
    RunKeepsPaths(INIT, es);
    var s := Run(INIT, es).value;
    var c := s.calls[e.id];
    var a, name := On(s.inFlight, c.node), c.phase.device.path;
    assert HandleMatches(s, c) && HasPath(c);
    StepGuard(s, e);
    StepNames(s, e);
    StepHandles(s, e);
    if c.volume in a {
      FailedWaitKeeps(s, e);
      KeptIsWithheld(Step(s, e), c.node, c.volume, a[c.volume].name);
    }
    if c.volume in a && a[c.volume].name == name {
      WithheldNeverGoesToOther(Step(s, e), c.node, c.volume, name);
    } else {
      UnheldIsNotWithheld(Step(s, e), c.node, c.volume, name);
      if Legal(name) {
        UnheldMayGoToOther(Step(s, e), c.node, c.volume, name);
      } else {
        IllegalNeverGoesToOther(Step(s, e), c.node, c.volume, name);
      }
    }
  }

  lemma UnheldIsNotWithheld(s: State, node: string, volume: string, name: string)
    requires name != ""
    requires !(volume in On(s.inFlight, node) && On(s.inFlight, node)[volume].name == name)
    ensures !Withheld(s, node, volume, name)
  {
    var a := On(s.inFlight, node);
    if other :| other in a && a[other].name == name {
      assert Run(s, []) == Some(s) && NeverCleared(s, [], node, volume);
      assert HandedToOther(s, node, volume, name);
    } else {
      UnreservedIsNotWithheld(s, node, volume, name);
    }
  }

  /** A publish call that holds a device has a name for it. */
  predicate HasPath(c: Call) {
    c.kind.Publish? && c.phase.Holding? ==> c.phase.device.path != ""
  }

  lemma AnswerHasPath(inst: Instance, a: Attaching, volume: string, bad: set<string>, numCards: int, d: Device)
    requires EbsPresent(inst) && MayReturn(inst, a, volume, bad, numCards, Some(d))
    ensures d.path != ""
  {
    var inUse, path :|
      IsInUse(inst, a, inUse) && IsPath(inUse, volume, path) && Answers(inst, a, volume, bad, numCards, inUse, path, Some(d));
    FirstCleanIsFirst(inUse.Keys, bad, 0);
    var k := FirstClean(inUse.Keys, bad, 0);
    if k < NAME_COUNT { SeriesShows(k); }
  }

  lemma StepKeepsPath(s: State, e: Event, id: nat)
    requires Enabled(s, e) && id in Step(s, e).calls && (id in s.calls ==> HasPath(s.calls[id]))
    ensures HasPath(Step(s, e).calls[id])
  {
    if id != e.id {
      if id in s.calls { OtherCallsStay(s, e, id); }
    } else if e.NewDevice? && e.answer.Some? {
      AnswerHasPath(e.inst, On(s.inFlight, e.inst.id), s.calls[id].volume, BadNames(s, e.bad), e.numCards, e.answer.value);
    }
  }

  lemma {:induction false} RunKeepsPaths(s: State, es: seq<Event>)
    requires Run(s, es).Some? && forall id :: id in s.calls ==> HasPath(s.calls[id])
    ensures forall id :: id in Run(s, es).value.calls ==> HasPath(Run(s, es).value.calls[id])
  {
    if es != [] {
      var before, e := Run(s, es[..|es| - 1]).value, es[|es| - 1];
      RunKeepsPaths(s, es[..|es| - 1]);
      forall id | id in Step(before, e).calls ensures HasPath(Step(before, e).calls[id]) {
        StepKeepsPath(before, e, id);
      }
    }
  }

  // ----- A failed wait on a recognised device withholds nothing -----

  const TAINTED := Showing("i-1", "vol-1", "/dev/xvdaa")
  const EMPTY := Instance("i-1", [])
  const RECOGNISED := Device("i-1", "/dev/xvdaa", "vol-1", true, None)
  const FRESH := Device("i-1", "/dev/xvdaa", "vol-2", false, None)

  /**
   * An instance description shows vol-1 at /dev/xvdaa, the wait for it fails, and vol-2 is at once given the
   * same name from a description that shows nothing.
   */
  const RECOGNISED_THEN_FRESH: seq<Event> := [
    Begin(0, Publish, "vol-1", "i-1"),
    NewDevice(0, TAINTED, 0, 1, Some(RECOGNISED)),
    WaitFailed(0),
    Begin(1, Publish, "vol-2", "i-1"),
    NewDevice(1, EMPTY, 0, 1, Some(FRESH))]

  lemma FirstNameFromNothing()
    ensures MayReturn(EMPTY, map[], "vol-2", {}, 1, Some(FRESH))
  {
    assert Name(0) == "/dev/xvdaa";
    assert AreNames(map[], map[]) && Attached([]) + map[] == map[];
    assert IsInUse(EMPTY, map[], map[]) && IsPath(map[], "vol-2", "");
    assert FirstClean({}, {}, 0) == 0;
    assert Answers(EMPTY, map[], "vol-2", {}, 1, map[], "", Some(FRESH));
  }

  lemma RunOneMore(s: State, es: seq<Event>, e: Event)
    requires Run(s, es).Some? && Enabled(Run(s, es).value, e)
    ensures Run(s, es + [e]) == Some(Step(Run(s, es).value, e))
  {
    assert (es + [e])[..|es|] == es;
  }

  /** The system when the wait is about to fail, and when the second volume asks for a device. */
  const WAITING := State(
    {Key("vol-1", "i-1")}, map[0 := Call(Publish, "vol-1", "i-1", Holding(RECOGNISED, 0, true))], map[], [{}], {})
  const ASKING := State(
    {Key("vol-1", "i-1"), Key("vol-2", "i-1")},
    map[0 := Call(Publish, "vol-1", "i-1", Finished), 1 := Call(Publish, "vol-2", "i-1", Begun)], map[], [{}], {})

  lemma SameState(s: State, t: State)
    requires s.guard == t.guard && s.calls == t.calls && s.inFlight == t.inFlight
    requires s.badNames == t.badNames && s.abandoned == t.abandoned
    ensures s == t
  {
  }

  lemma RecognisedIsWaiting()
    ensures Run(INIT, RECOGNISED_THEN_FRESH[..2]) == Some(WAITING)
  {
    var es := RECOGNISED_THEN_FRESH;
    ShowingIsAnswered(map[], "i-1", "vol-1", "/dev/xvdaa");
    RunOneMore(INIT, [], es[0]);
    RunOneMore(INIT, [es[0]], es[1]);
    assert [] + [es[0]] == [es[0]] && [es[0]] + [es[1]] == es[..2];
    SameState(Step(Step(INIT, es[0]), es[1]), WAITING);
  }

  const FAILED := State(
    {Key("vol-1", "i-1")}, map[0 := Call(Publish, "vol-1", "i-1", Finished)], map[], [{}], {})

  lemma WaitHasFailed()
    ensures Run(INIT, RECOGNISED_THEN_FRESH[..3]) == Some(FAILED)
  {
    var es := RECOGNISED_THEN_FRESH;
    RecognisedIsWaiting();
    RunOneMore(INIT, es[..2], es[2]);
    assert es[..2] + [es[2]] == es[..3];
    SameState(Step(WAITING, es[2]), FAILED);
  }

  lemma SecondVolumeIsAsking()
    ensures Run(INIT, RECOGNISED_THEN_FRESH[..4]) == Some(ASKING)
  {
    var es := RECOGNISED_THEN_FRESH;
    WaitHasFailed();
    assert Key("vol-1", "i-1")[4] != Key("vol-2", "i-1")[4];
    RunOneMore(INIT, es[..3], es[3]);
    assert es[..3] + [es[3]] == es[..4];
    SameState(Step(FAILED, es[3]), ASKING);
  }

  lemma TaintedNameMayBeGivenAway()
    ensures var es := RECOGNISED_THEN_FRESH;
            && Run(INIT, es[..2]) == Some(WAITING)
            && es[2] == WaitFailed(0) && WAITING.calls[0].phase.device.path == FRESH.path
            && Run(INIT, es[..4]) == Some(ASKING) && Enabled(ASKING, es[4])
            && HandsToOther(ASKING, es[4], "i-1", "vol-1", FRESH.path) && !es[4].answer.value.already
  {
    RecognisedIsWaiting();
    SecondVolumeIsAsking();
    FirstNameFromNothing();
  }

  /**
   * A detach, or a successful retry, ends the reservation exactly when its device has the reserved name;
   * GetFindsReservationIff says when it is sure to.
   */
  lemma ReleaseFreesIffSameName(s: State, e: Event)
    requires Inv(s) && (e.WaitSucceeded? || e.Detached?) && Enabled(s, e)
    requires var c := s.calls[e.id]; c.volume in On(s.inFlight, c.node)
    ensures var c := s.calls[e.id];
            c.volume !in On(Step(s, e).inFlight, c.node)
            <==> c.phase.device.path == On(s.inFlight, c.node)[c.volume].name
  {
    assert HandleMatches(s, s.calls[e.id]);
  }

  // ----- Reservations do not leak -----

  /** A live call holds it, or a failed wait left it. */
  ghost predicate Accounted(s: State, node: string, volume: string) {
    (node, volume) in s.abandoned || exists id :: OwnedBy(s, node, volume, id)
  }

  ghost predicate AllAccounted(s: State) {
    forall node, volume :: volume in On(s.inFlight, node) ==> Accounted(s, node, volume)
  }

  lemma OtherStepAccounts(s: State, e: Event, node: string, volume: string)
    requires Inv(s) && Enabled(s, e) && Accounted(s, node, volume)
    requires e.id !in s.calls || s.calls[e.id].volume != volume || s.calls[e.id].node != node
    ensures Accounted(Step(s, e), node, volume)
  {
    if e.id in s.calls { assert HandleMatches(s, s.calls[e.id]); }
    if (node, volume) !in s.abandoned {
      var id :| OwnedBy(s, node, volume, id);
      OthersKeepOwning(s, e, node, volume, id);
    }
  }

  lemma StepAccounts(s: State, e: Event, node: string, volume: string)
    requires Inv(s) && AllAccounted(s) && Enabled(s, e) && volume in On(Step(s, e).inFlight, node)
    ensures Accounted(Step(s, e), node, volume)
  {
    if e.id in s.calls && s.calls[e.id].volume == volume && s.calls[e.id].node == node {
      OwnStepAccounts(s, e);
    } else {
      StepTouchesOwnReservation(s, e, node, volume);
      OtherStepAccounts(s, e, node, volume);
    }
  }

  lemma OwnStepAccounts(s: State, e: Event)
    requires Inv(s) && AllAccounted(s) && Enabled(s, e) && e.id in s.calls
    requires var c := s.calls[e.id]; c.volume in On(Step(s, e).inFlight, c.node)
    ensures Accounted(Step(s, e), s.calls[e.id].node, s.calls[e.id].volume)
  {
    var t, c := Step(s, e), s.calls[e.id];
    assert HandleMatches(s, c);
    if OwnedBy(t, c.node, c.volume, e.id) {
    } else {
      assert c.volume in On(s.inFlight, c.node);
      assert Accounted(s, c.node, c.volume);
      if (c.node, c.volume) !in s.abandoned {
        var id :| OwnedBy(s, c.node, c.volume, id);
        assert KeyOf(s.calls[id]) == KeyOf(c);
      }
    }
  }

  /** After every run, each reservation is held by a live attach or was left by a failed wait. */
  lemma {:induction false} ReservationsAreAccountedFor(es: seq<Event>)
    requires Run(INIT, es).Some?
    ensures AllAccounted(Run(INIT, es).value)
  {
    if es != [] {
      InitialInvariant();
      var before := es[..|es| - 1];
      RunKeepsInvariant(INIT, before);
      ReservationsAreAccountedFor(before);
      var s, e := Run(INIT, before).value, es[|es| - 1];
      forall node, volume | volume in On(Step(s, e).inFlight, node) ensures Accounted(Step(s, e), node, volume) {
        StepAccounts(s, e, node, volume);
      }
    }
  }

  /** In the history, a wait for the volume on the node failed. */
  ghost predicate WaitFailedBefore(es: seq<Event>, node: string, volume: string)
    requires Run(INIT, es).Some?
  {
    && es != []
    && var before, e := es[..|es| - 1], es[|es| - 1];
       || (e.WaitFailed? && IsOn(Run(INIT, before).value, e.id, node, volume))
       || WaitFailedBefore(before, node, volume)
  }

  predicate IsOn(s: State, id: nat, node: string, volume: string) {
    id in s.calls && s.calls[id].node == node && s.calls[id].volume == volume
  }

  lemma StepAbandons(s: State, e: Event, node: string, volume: string)
    requires Inv(s) && Enabled(s, e) && (node, volume) in Step(s, e).abandoned && (node, volume) !in s.abandoned
    ensures e.WaitFailed? && IsOn(s, e.id, node, volume)
  {
    if e.id in s.calls { assert HandleMatches(s, s.calls[e.id]); }
  }

  lemma {:induction false} AbandonedByFailedWait(es: seq<Event>, node: string, volume: string)
    requires Run(INIT, es).Some? && (node, volume) in Run(INIT, es).value.abandoned
    ensures WaitFailedBefore(es, node, volume)
  {
    var before, e := es[..|es| - 1], es[|es| - 1];
    var s := Run(INIT, before).value;
    if (node, volume) in s.abandoned {
      AbandonedByFailedWait(before, node, volume);
    } else {
      InitialInvariant();
      RunKeepsInvariant(INIT, before);
      StepAbandons(s, e, node, volume);
    }
  }

  /** After every run, each reservation is held by a live attach, or a wait for that volume on that node has failed. */
  lemma ReservationsHaveAReason(es: seq<Event>, node: string, volume: string)
    requires Run(INIT, es).Some? && volume in On(Run(INIT, es).value.inFlight, node)
    ensures (exists id :: OwnedBy(Run(INIT, es).value, node, volume, id)) || WaitFailedBefore(es, node, volume)
  {
    ReservationsAreAccountedFor(es);
    assert Accounted(Run(INIT, es).value, node, volume);
    if (node, volume) in Run(INIT, es).value.abandoned { AbandonedByFailedWait(es, node, volume); }
  }

  // ----- A fresh device is asked for before it is waited for -----

  /** A publish call waits for a fresh device. */
  predicate WaitsForFresh(s: State, id: nat) {
    && id in s.calls && s.calls[id].kind.Publish? && s.calls[id].phase.Holding?
    && s.calls[id].phase.asked && !s.calls[id].phase.device.already
  }

  lemma StepStartsWaiting(s: State, e: Event, id: nat)
    requires Enabled(s, e) && WaitsForFresh(Step(s, e), id) && !WaitsForFresh(s, id)
    ensures e == AttachAccepted(id)
  {
    if id != e.id && id in s.calls { OtherCallsStay(s, e, id); }
  }

  /** In every run, EC2 has accepted the attachment that a call waits for, unless the volume was already there. */
  lemma {:induction false} WaitsOnlyForAccepted(es: seq<Event>, id: nat)
    requires Run(INIT, es).Some? && WaitsForFresh(Run(INIT, es).value, id)
    ensures exists k :: 0 <= k < |es| && es[k] == AttachAccepted(id)
  {
    var before, e := es[..|es| - 1], es[|es| - 1];
    var s := Run(INIT, before).value;
    if WaitsForFresh(s, id) {
      WaitsOnlyForAccepted(before, id);
      var k :| 0 <= k < |before| && before[k] == AttachAccepted(id);
      assert es[k] == AttachAccepted(id);
    } else {
      StepStartsWaiting(s, e, id);
    }
  }

  // ----- Which names are likely bad -----

  /** The event is about this name, taken from this map of likely-bad names. */
  predicate Concerns(s: State, e: Event, map': nat, name: string) {
    && (e.AttachRefused? || e.AttachAccepted?) && e.id in s.calls && s.calls[e.id].phase.Holding?
    && s.calls[e.id].phase.bad == map' && s.calls[e.id].phase.device.path == name
  }

  /** EC2 has refused the name as in use, and has not accepted it since. */
  ghost predicate RefusedSinceAccepted(es: seq<Event>, map': nat, name: string)
    requires Run(INIT, es).Some?
  {
    && es != []
    && var before, e := es[..|es| - 1], es[|es| - 1];
       var concerns := Concerns(Run(INIT, before).value, e, map', name);
       || (concerns && e.AttachRefused? && e.deviceInUse)
       || (RefusedSinceAccepted(before, map', name) && !(concerns && e.AttachAccepted?))
  }

  /** The map a publish call works with exists. */
  predicate HasMap(s: State, c: Call) {
    c.kind.Publish? && c.phase.Holding? ==> c.phase.bad < |s.badNames|
  }

  lemma StepKeepsMap(s: State, e: Event, id: nat)
    requires Enabled(s, e) && id in Step(s, e).calls && (id in s.calls ==> HasMap(s, s.calls[id]))
    ensures |s.badNames| <= |Step(s, e).badNames| && HasMap(Step(s, e), Step(s, e).calls[id])
  {
    if id != e.id && id in s.calls { OtherCallsStay(s, e, id); }
  }

  lemma {:induction false} RunKeepsMaps(es: seq<Event>)
    requires Run(INIT, es).Some?
    ensures forall id :: id in Run(INIT, es).value.calls ==> HasMap(Run(INIT, es).value, Run(INIT, es).value.calls[id])
  {
    if es != [] {
      var before, e := Run(INIT, es[..|es| - 1]).value, es[|es| - 1];
      RunKeepsMaps(es[..|es| - 1]);
      forall id | id in Step(before, e).calls ensures HasMap(Step(before, e), Step(before, e).calls[id]) {
        StepKeepsMap(before, e, id);
      }
    }
  }

  predicate IsLikelyBad(s: State, map': nat, name: string) {
    map' < |s.badNames| && name in s.badNames[map']
  }

  lemma StepLikelyBad(s: State, e: Event, map': nat, name: string)
    requires Enabled(s, e) && (e.id in s.calls ==> HasMap(s, s.calls[e.id]))
    ensures IsLikelyBad(Step(s, e), map', name) <==>
              || (Concerns(s, e, map', name) && e.AttachRefused? && e.deviceInUse)
              || (IsLikelyBad(s, map', name) && !(Concerns(s, e, map', name) && e.AttachAccepted?))
  {
  }

  /** In every run, a name is likely bad exactly when EC2 refused it as in use and has not accepted it since. */
  lemma {:induction false} LikelyBadIffRefused(es: seq<Event>, map': nat, name: string)
    requires Run(INIT, es).Some?
    ensures IsLikelyBad(Run(INIT, es).value, map', name) <==> RefusedSinceAccepted(es, map', name)
  {
    if es != [] {
      var before, e := es[..|es| - 1], es[|es| - 1];
      LikelyBadIffRefused(before, map', name);
      RunKeepsMaps(before);
      StepLikelyBad(Run(INIT, before).value, e, map', name);
    }
  }

  // ----- The guard in the code -----

  /** The RPC methods' use of the in-flight set, with the whole system's state as its specification. */
  class ControllerService {
    const inFlight: InFlightGuard.InFlight
    ghost var system: State

    ghost predicate Valid()
      reads this, inFlight
    {
      inFlight.inFlight == system.guard
    }

    constructor ()
      ensures Valid() && fresh(inFlight) && system == INIT
    {
      inFlight := new InFlightGuard.InFlight();
      system := INIT;
    }

    /** The first step of all six calls; one that may not begin is answered with ABORTED and leaves no trace. */
    method TryBegin(ghost id: nat, ghost kind: Kind, volume: string, node: string) returns (ok: bool)
      requires Valid() && id !in system.calls && (OnNode(kind) || node == "")
      modifies this, inFlight
      ensures Valid()
      ensures ok <==> Enabled(old(system), Begin(id, kind, volume, node))
      ensures system == if ok then Step(old(system), Begin(id, kind, volume, node)) else old(system)
    {
      ok := inFlight.Insert(volume + node);
      if ok { system := Step(system, Begin(id, kind, volume, node)); }
    }

    /** The deferred last step. */
    method Finish(ghost id: nat, volume: string, node: string)
      requires Valid() && Enabled(system, End(id))
      requires system.calls[id].volume == volume && system.calls[id].node == node
      modifies this, inFlight
      ensures Valid() && system == Step(old(system), End(id))
    {
      inFlight.Delete(volume + node);
      system := Step(system, End(id));
    }
  }
}
