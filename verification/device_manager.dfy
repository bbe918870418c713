/**
 * The device manager of pkg/cloud/devicemanager/manager.go: which device name and EBS card a volume gets
 * on a node, given an instance description that may be stale and the attachments still in flight.
 *
 * Go visits maps in no particular order. Where that order can influence a result, the specification is a
 * relation that admits every order.
 */
module DeviceManager {

  import opened Base
  import opened DeviceNames

  datatype Ebs = Ebs(volumeId: Option<string>, card: Option<int>)

  datatype Mapping = Mapping(name: Option<string>, ebs: Option<Ebs>)

  /** What EC2 reported about an instance at some point. */
  datatype Instance = Instance(id: string, mappings: seq<Mapping>)

  /** A reservation: the device name and card promised to a volume being attached. */
  datatype Entry = Entry(name: string, card: Option<int>)

  /** The reservations on one node, by volume. */
  type Attaching = map<string, Entry>

  /** The reservations, by node. */
  type InFlight = map<string, Attaching>

  /** The handle a caller gets. `already` tells a volume that was already there from a fresh reservation. */
  datatype Device = Device(node: string, path: string, volume: string, already: bool, card: Option<int>)

  function ToString(s: Option<string>): string {
    if s.Some? then s.value else ""
  }

  /** The code dereferences every mapping's EBS part. */
  predicate EbsPresent(inst: Instance) {
    forall i :: 0 <= i < |inst.mappings| ==> inst.mappings[i].ebs.Some?
  }

  // ----- The in-flight map -----

  function On(inFlight: InFlight, node: string): Attaching {
    if node in inFlight then inFlight[node] else map[]
  }

  function Add(inFlight: InFlight, node: string, volume: string, entry: Entry): InFlight {
    inFlight[node := On(inFlight, node)[volume := entry]]
  }

  function Del(inFlight: InFlight, node: string, volume: string): InFlight {
    if node in inFlight then inFlight[node := inFlight[node] - {volume}] else inFlight
  }

  /** `names` maps each reserved name to a volume that reserved it. */
  ghost predicate AreNames(a: Attaching, names: map<string, string>) {
    && (forall v :: v in a ==> a[v].name in names)
    && (forall n :: n in names ==> names[n] in a && a[names[n]].name == n)
  }

  method GetNames(a: Attaching) returns (names: map<string, string>)
    ensures AreNames(a, names)
  {
    names := map[];
    var left := a.Keys;
    while left != {}
      invariant left <= a.Keys
      invariant forall v :: v in a && v !in left ==> a[v].name in names
      invariant forall n :: n in names ==> names[n] in a && a[names[n]].name == n
      decreases |left|
    {
      var volume :| volume in left;
      names := names[a[volume].name := volume];
      left := left - {volume};
    }
  }

  /** No two volumes hold the same name. */
  ghost predicate NoSharedNames(a: Attaching) {
    forall v, w :: v in a && w in a && a[v].name == a[w].name ==> v == w
  }

  /** Then, and only then, GetNames loses no reservation whatever the order: it is an exact inverse. */
  lemma NamesInvertIffUnshared(a: Attaching)
    ensures NoSharedNames(a)
            <==> forall names :: AreNames(a, names) ==> forall v :: v in a ==> names[a[v].name] == v
  {
    if !NoSharedNames(a) {
      var v, w :| v in a && w in a && a[v].name == a[w].name && v != w;
      var names := AllNames(a);
      assert AreNames(a, names);
    }
  }

  ghost function SomeHolder(a: Attaching, name: string): (v: string)
    requires exists u :: u in a && a[u].name == name
    ensures v in a && a[v].name == name
  {
    var u :| u in a && a[u].name == name;
    u
  }

  // ----- Names in use -----

  /** Device name to volume, as the instance reports it; a later mapping of the same name wins. */
  function Attached(mappings: seq<Mapping>): map<string, string>
    requires forall i :: 0 <= i < |mappings| ==> mappings[i].ebs.Some?
  {
    if mappings == [] then map[]
    else
      var last := mappings[|mappings| - 1];
      Attached(mappings[..|mappings| - 1])[ToString(last.name) := ToString(last.ebs.value.volumeId)]
  }

  /** Reported names overridden by reserved ones. */
  ghost predicate IsInUse(inst: Instance, a: Attaching, inUse: map<string, string>)
    requires EbsPresent(inst)
  {
    exists names :: AreNames(a, names) && inUse == Attached(inst.mappings) + names
  }

  /** A name recorded for the volume, or "" if there is none; "" itself may also be recorded. */
  predicate IsPath(inUse: map<string, string>, volume: string, path: string) {
    if path in inUse && inUse[path] == volume then true
    else path == "" && forall n :: n in inUse ==> inUse[n] != volume
  }

  method GetPath(inUse: map<string, string>, volume: string) returns (path: string)
    ensures IsPath(inUse, volume, path)
  {
    var left := inUse.Keys;
    while left != {}
      invariant left <= inUse.Keys && forall n :: n in inUse && n !in left ==> inUse[n] != volume
      decreases |left|
    {
      var name :| name in left;
      if inUse[name] == volume { return name; }
      left := left - {name};
    }
    return "";
  }

  // ----- Cards -----

  function MappedCard(m: Mapping): Option<int> {
    if m.ebs.Some? then m.ebs.value.card else None
  }

  /** The first mapping of the volume decides, even if it shows no card. */
  function CardOfExisting(mappings: seq<Mapping>, volume: string): Option<int> {
    if mappings == [] then None
    else if mappings[0].ebs.Some? && mappings[0].ebs.value.volumeId == Some(volume) then mappings[0].ebs.value.card
    else CardOfExisting(mappings[1..], volume)
  }

  /** Volumes counted through their mapping. */
  function Counted(mappings: seq<Mapping>): set<string> {
    set i | 0 <= i < |mappings| && MappedCard(mappings[i]).Some? && mappings[i].ebs.value.volumeId.Some?
      :: mappings[i].ebs.value.volumeId.value
  }

  function MappedLoad(mappings: seq<Mapping>, card: int): nat {
    if mappings == [] then 0
    else MappedLoad(mappings[..|mappings| - 1], card)
         + (if MappedCard(mappings[|mappings| - 1]) == Some(card) then 1 else 0)
  }

  /** Reservations on the card that no counted mapping stands for. */
  function ReservedOn(a: Attaching, counted: set<string>, card: int): set<string> {
    set v | v in a && a[v].card == Some(card) && v !in counted
  }

  /** The number getCardCounts arrives at for a card. */
  function Load(inst: Instance, a: Attaching, card: int): nat {
    MappedLoad(inst.mappings, card) + |ReservedOn(a, Counted(inst.mappings), card)|
  }

  function At(counts: map<int, int>, card: int): int {
    if card in counts then counts[card] else 0
  }

  method CountMapped(mappings: seq<Mapping>) returns (counts: map<int, int>)
    ensures forall c :: At(counts, c) == MappedLoad(mappings, c)
    ensures forall c :: c in counts ==> counts[c] >= 1
  {
    counts := map[];
    for i := 0 to |mappings|
      invariant forall c :: At(counts, c) == MappedLoad(mappings[..i], c)
      invariant forall c :: c in counts ==> counts[c] >= 1
    {
      assert mappings[..i + 1][..i] == mappings[..i];
      var card := MappedCard(mappings[i]);
      if card.Some? { counts := counts[card.value := At(counts, card.value) + 1]; }
    }
    assert mappings[..|mappings|] == mappings;
  }

  method GetCardCounts(inst: Instance, a: Attaching) returns (counts: map<int, int>)
    ensures forall c :: At(counts, c) == Load(inst, a, c)
    ensures forall c :: c in counts ==> counts[c] >= 1
  {
    counts := CountMapped(inst.mappings);
    var counted := Counted(inst.mappings);
    var left := a.Keys;
    ghost var done: Attaching := map[];
    while left != {}
      invariant left <= a.Keys
      invariant done == map v | v in a && v !in left :: a[v]
      invariant forall c :: At(counts, c) == MappedLoad(inst.mappings, c) + |ReservedOn(done, counted, c)|
      invariant forall c :: c in counts ==> counts[c] >= 1
      decreases |left|
    {
      var volume :| volume in left;
      var entry := a[volume];
      if entry.card.Some? && volume !in counted {
        counts := counts[entry.card.value := At(counts, entry.card.value) + 1];
      }
      left := left - {volume};
      ReservedGrows(done, counted, volume, entry);
      done := done[volume := entry];
    }
    assert done == a;
  }

  lemma ReservedGrows(a: Attaching, counted: set<string>, volume: string, entry: Entry)
    requires volume !in a
    ensures forall c :: |ReservedOn(a[volume := entry], counted, c)|
              == |ReservedOn(a, counted, c)| + (if entry.card == Some(c) && volume !in counted then 1 else 0)
  {
    forall c ensures |ReservedOn(a[volume := entry], counted, c)|
              == |ReservedOn(a, counted, c)| + (if entry.card == Some(c) && volume !in counted then 1 else 0)
    {
      var before, after := ReservedOn(a, counted, c), ReservedOn(a[volume := entry], counted, c);
      assert after == if entry.card == Some(c) && volume !in counted then before + {volume} else before;
    }
  }

  /** `card` has the lexicographically least (count, index) among the keys. */
  ghost predicate IsLeast(counts: map<int, int>, card: int) {
    && card in counts
    && forall c :: c in counts ==> counts[card] < counts[c] || (counts[card] == counts[c] && card <= c)
  }

  /** The counts with a zero for every card of the instance that has none yet. */
  function WithAllCards(counts: map<int, int>, numCards: int): map<int, int> {
    if numCards <= 0 then counts
    else
      var rest := WithAllCards(counts, numCards - 1);
      if numCards - 1 in rest then rest else rest[numCards - 1 := 0]
  }

  lemma {:induction false} WithAllCardsMeans(counts: map<int, int>, numCards: int, c: int)
    ensures var all := WithAllCards(counts, numCards);
            && (c in all <==> c in counts || 0 <= c < numCards)
            && (c in all ==> all[c] == At(counts, c))
  {
    if numCards > 0 { WithAllCardsMeans(counts, numCards - 1, c); }
  }

  const MAX_COUNT: int := 0x7fff_ffff

  lemma HasMember(s: set<int>)
    requires s != {}
    ensures exists c :: c in s
  {
    if forall c :: c !in s { assert false; }
  }

  /** The scan for the fewest volumes, which starts from the largest int32 and card 0. */
  method LeastCard(counts: map<int, int>) returns (selected: int)
    ensures (exists c :: c in counts && counts[c] < MAX_COUNT) ==> IsLeast(counts, selected)
  {
    var minCount := MAX_COUNT;
    selected := 0;
    var left := counts.Keys;
    while left != {}
      invariant left <= counts.Keys && minCount <= MAX_COUNT
      invariant minCount < MAX_COUNT ==> selected in counts && counts[selected] == minCount
      invariant forall c :: c in counts && c !in left ==>
                  minCount < counts[c] || (minCount == counts[c] && selected <= c)
      decreases |left|
    {
      HasMember(left);
      var c :| c in left;
      if counts[c] < minCount || (counts[c] == minCount && c < selected) {
        minCount, selected := counts[c], c;
      }
      left := left - {c};
    }
  }

  /** The least loaded card in every iteration order, or none on an instance with a single card. */
  method GetNextCardIndex(numCards: int, counts: map<int, int>) returns (card: Option<int>)
    ensures numCards <= 1 ==> card == None
    ensures numCards > 1 ==> card.Some?
    ensures var all := WithAllCards(counts, numCards);
            numCards > 1 && (exists c :: c in all && all[c] < MAX_COUNT) ==> IsLeast(all, card.value)
  {
    if numCards <= 1 { return None; }
    var all := counts;
    for i := 0 to numCards
      invariant all == WithAllCards(counts, i)
    {
      if i !in all { all := all[i := 0]; }
    }
    var selected := LeastCard(all);
    return Some(selected);
  }

  /** A card the choice ranges over: one of the instance's own, or any other that something is recorded on. */
  predicate Candidate(inst: Instance, a: Attaching, numCards: int, card: int) {
    0 <= card < numCards || Load(inst, a, card) >= 1
  }

  ghost predicate NotCrowded(inst: Instance, a: Attaching, numCards: int) {
    exists c :: Candidate(inst, a, numCards, c) && Load(inst, a, c) < MAX_COUNT
  }

  /** The card chosen for a new volume: the least loaded candidate, the lowest index among equals. */
  ghost predicate LeastLoaded(inst: Instance, a: Attaching, numCards: int, card: Option<int>) {
    if numCards <= 1 then card == None
    else
      && card.Some?
      && (NotCrowded(inst, a, numCards) ==>
            && Candidate(inst, a, numCards, card.value)
            && forall c :: Candidate(inst, a, numCards, c) ==>
                 || Load(inst, a, card.value) < Load(inst, a, c)
                 || (Load(inst, a, card.value) == Load(inst, a, c) && card.value <= c))
  }

  method ChooseCard(inst: Instance, a: Attaching, numCards: int) returns (card: Option<int>)
    ensures LeastLoaded(inst, a, numCards, card)
  {
    var counts := GetCardCounts(inst, a);
    card := GetNextCardIndex(numCards, counts);
    if numCards > 1 {
      ghost var all := WithAllCards(counts, numCards);
      forall c
        ensures c in all <==> Candidate(inst, a, numCards, c)
        ensures c in all ==> all[c] == Load(inst, a, c)
      {
        WithAllCardsMeans(counts, numCards, c);
      }
    }
  }

  // ----- Loads are volumes, and stay balanced -----

  /** No two mappings name the same volume. */
  predicate DistinctVolumes(mappings: seq<Mapping>) {
    && (forall i :: 0 <= i < |mappings| ==> mappings[i].ebs.Some? && mappings[i].ebs.value.volumeId.Some?)
    && (forall i, j :: 0 <= i < j < |mappings| ==>
          mappings[i].ebs.value.volumeId.value != mappings[j].ebs.value.volumeId.value)
  }

  predicate Shows(m: Mapping, volume: string, card: int) {
    MappedCard(m) == Some(card) && m.ebs.value.volumeId == Some(volume)
  }

  /** The volumes the instance reports on a card. */
  function MappedOn(mappings: seq<Mapping>, card: int): set<string> {
    if mappings == [] then {}
    else
      var last := mappings[|mappings| - 1];
      MappedOn(mappings[..|mappings| - 1], card)
      + (if MappedCard(last) == Some(card) && last.ebs.value.volumeId.Some? then {last.ebs.value.volumeId.value} else {})
  }

  lemma {:induction false} MappedOnMeans(mappings: seq<Mapping>, card: int, volume: string)
    ensures volume in MappedOn(mappings, card) <==> exists i :: 0 <= i < |mappings| && Shows(mappings[i], volume, card)
  {
    if mappings != [] {
      var last := |mappings| - 1;
      var prefix := mappings[..last];
      MappedOnMeans(prefix, card, volume);
      assert forall i :: 0 <= i < last ==> prefix[i] == mappings[i];
      if volume in MappedOn(prefix, card) {
        var i :| 0 <= i < last && Shows(prefix[i], volume, card);
        assert Shows(mappings[i], volume, card);
      } else if volume in MappedOn(mappings, card) {
        assert Shows(mappings[last], volume, card);
      }
    }
  }

  lemma {:induction false} MappedLoadCountsVolumes(mappings: seq<Mapping>, card: int)
    requires DistinctVolumes(mappings)
    ensures MappedLoad(mappings, card) == |MappedOn(mappings, card)|
  {
    if mappings != [] {
      var prefix, last := mappings[..|mappings| - 1], mappings[|mappings| - 1];
      MappedLoadCountsVolumes(prefix, card);
      MappedOnMeans(prefix, card, last.ebs.value.volumeId.value);
    }
  }

  /** A volume is on the card its mapping shows, or else on the one reserved for it. */
  function VolumesOn(inst: Instance, a: Attaching, card: int): set<string> {
    MappedOn(inst.mappings, card) + ReservedOn(a, Counted(inst.mappings), card)
  }

  /** A card's count is its number of volumes: one both mapped and reserved is counted once. */
  lemma LoadCountsEachVolumeOnce(inst: Instance, a: Attaching, card: int)
    requires DistinctVolumes(inst.mappings)
    ensures Load(inst, a, card) == |VolumesOn(inst, a, card)|
  {
    MappedLoadCountsVolumes(inst.mappings, card);
    var mapped, reserved := MappedOn(inst.mappings, card), ReservedOn(a, Counted(inst.mappings), card);
    forall v | v in mapped ensures v in Counted(inst.mappings) {
      MappedOnMeans(inst.mappings, card, v);
    }
    assert mapped !! reserved;
  }

  /** Card loads differ by at most one. */
  ghost predicate Balanced(inst: Instance, a: Attaching, numCards: int) {
    forall c, d :: 0 <= c < numCards && 0 <= d < numCards ==> Load(inst, a, c) <= Load(inst, a, d) + 1
  }

  /** Reserving the chosen card for a volume not yet counted keeps balanced loads balanced. */
  lemma ReservingKeepsBalance(inst: Instance, a: Attaching, numCards: int, volume: string, entry: Entry)
    requires numCards > 1 && NotCrowded(inst, a, numCards)
    requires forall c :: Load(inst, a, c) >= 1 ==> 0 <= c < numCards
    requires volume !in a && volume !in Counted(inst.mappings)
    requires Balanced(inst, a, numCards) && LeastLoaded(inst, a, numCards, entry.card)
    ensures 0 <= entry.card.value < numCards
    ensures Balanced(inst, a[volume := entry], numCards)
    ensures forall c :: Load(inst, a[volume := entry], c) == Load(inst, a, c) + (if entry.card == Some(c) then 1 else 0)
  {
    ReservedGrows(a, Counted(inst.mappings), volume, entry);
    var after := a[volume := entry];
    assert forall c :: Load(inst, after, c) == Load(inst, a, c) + (if entry.card == Some(c) then 1 else 0);
    assert forall d :: 0 <= d < numCards ==> Candidate(inst, a, numCards, d);
  }

  // ----- The three operations -----

  /** NewDevice's answer once the names in use and the volume's path among them are known. */
  ghost predicate Answers(
    inst: Instance, a: Attaching, volume: string, bad: set<string>, numCards: int,
    inUse: map<string, string>, path: string, r: Option<Device>)
  {
    if path != "" then
      r == Some(Device(inst.id, path, volume, true, CardOfExisting(inst.mappings, volume)))
    else if r.None? then MayAllocate(inUse.Keys, bad, None)
    else
      && MayAllocate(inUse.Keys, bad, Some(r.value.path))
      && LeastLoaded(inst, a, numCards, r.value.card)
      && r.value == Device(inst.id, r.value.path, volume, false, r.value.card)
  }

  /** Every answer NewDevice may give, over all map orders; None is the error of having no name left. */
  ghost predicate MayReturn(
    inst: Instance, a: Attaching, volume: string, bad: set<string>, numCards: int, r: Option<Device>)
    requires EbsPresent(inst)
  {
    exists inUse, path ::
      IsInUse(inst, a, inUse) && IsPath(inUse, volume, path) && Answers(inst, a, volume, bad, numCards, inUse, path, r)
  }

  /** Every answer GetDevice may give. */
  ghost predicate MayGet(inst: Instance, a: Attaching, volume: string, d: Device)
    requires EbsPresent(inst)
  {
    exists inUse :: IsInUse(inst, a, inUse) && IsPath(inUse, volume, d.path)
      && d == Device(inst.id, d.path, volume, d.path != "",
                     if d.path != "" then CardOfExisting(inst.mappings, volume) else None)
  }

  /** Only a fresh device adds a reservation. */
  function Reserve(inFlight: InFlight, r: Option<Device>): InFlight {
    if r.Some? && !r.value.already then Add(inFlight, r.value.node, r.value.volume, Entry(r.value.path, r.value.card))
    else inFlight
  }

  /** The reservation goes only if the handle still names it. */
  function Release(inFlight: InFlight, d: Device): InFlight {
    if d.volume in On(inFlight, d.node) && On(inFlight, d.node)[d.volume].name == d.path
    then Del(inFlight, d.node, d.volume) else inFlight
  }

  class Manager {
    var inFlight: InFlight

    constructor ()
      ensures inFlight == map[]
    {
      inFlight := map[];
    }

    method GetDeviceNamesInUse(inst: Instance) returns (inUse: map<string, string>)
      requires EbsPresent(inst)
      ensures IsInUse(inst, On(inFlight, inst.id), inUse)
    {
      inUse := map[];
      for i := 0 to |inst.mappings|
        invariant inUse == Attached(inst.mappings[..i])
      {
        assert inst.mappings[..i + 1][..i] == inst.mappings[..i];
        var m := inst.mappings[i];
        inUse := inUse[ToString(m.name) := ToString(m.ebs.value.volumeId)];
      }
      assert inst.mappings[..|inst.mappings|] == inst.mappings;
      var names := GetNames(On(inFlight, inst.id));
      inUse := inUse + names;
    }

    method FindCard(inst: Instance, volume: string) returns (card: Option<int>)
      ensures card == CardOfExisting(inst.mappings, volume)
    {
      for i := 0 to |inst.mappings|
        invariant CardOfExisting(inst.mappings, volume) == CardOfExisting(inst.mappings[i..], volume)
      {
        var m := inst.mappings[i];
        if m.ebs.Some? && m.ebs.value.volumeId == Some(volume) { return m.ebs.value.card; }
      }
      return None;
    }

    method NewDevice(instance: Option<Instance>, volume: string, bad: set<string>, numCards: int)
      returns (r: Option<Device>)
      requires instance.Some? ==> EbsPresent(instance.value)
      modifies this
      ensures instance.None? ==> r.None?
      ensures instance.Some? ==>
                MayReturn(instance.value, old(On(inFlight, instance.value.id)), volume, bad, numCards, r)
      ensures inFlight == Reserve(old(inFlight), r)
    {
      if instance.None? { return None; }
      var inst := instance.value;
      var inUse := GetDeviceNamesInUse(inst);
      var path := GetPath(inUse, volume);
      if path != "" {
        var existing := FindCard(inst, volume);
        r := Some(Device(inst.id, path, volume, true, existing));
      } else {
        r := Allocate(inst, volume, bad, numCards, inUse);
      }
      assert Answers(inst, old(On(inFlight, inst.id)), volume, bad, numCards, inUse, path, r);
    }

    /** The rest of NewDevice, for a volume that has no name yet. */
    method Allocate(inst: Instance, volume: string, bad: set<string>, numCards: int, inUse: map<string, string>)
      returns (r: Option<Device>)
      modifies this
      ensures Answers(inst, old(On(inFlight, inst.id)), volume, bad, numCards, inUse, "", r)
      ensures inFlight == Reserve(old(inFlight), r)
      ensures r.Some? ==> !r.value.already
    {
      var name := GetNext(inUse.Keys, bad);
      if name.None? { return None; }
      var card := ChooseCard(inst, On(inFlight, inst.id), numCards);
      inFlight := Add(inFlight, inst.id, volume, Entry(name.value, card));
      return Some(Device(inst.id, name.value, volume, false, card));
    }

    method GetDevice(inst: Instance, volume: string) returns (d: Device)
      requires EbsPresent(inst)
      ensures MayGet(inst, On(inFlight, inst.id), volume, d)
    {
      var inUse := GetDeviceNamesInUse(inst);
      var path := GetPath(inUse, volume);
      if path != "" {
        var existing := FindCard(inst, volume);
        return Device(inst.id, path, volume, true, existing);
      }
      return Device(inst.id, "", volume, false, None);
    }

    method ReleaseDevice(d: Device)
      modifies this
      ensures inFlight == Release(old(inFlight), d)
    {
      var a := On(inFlight, d.node);
      if d.volume !in a { return; }
      if d.path != a[d.volume].name { return; }
      inFlight := Del(inFlight, d.node, d.volume);
    }
  }

  /** A device in a caller's hands, which the caller may taint. */
  class Handle {
    const device: Device
    var isTainted: bool

    constructor (device: Device)
      ensures this.device == device && !isTainted
    {
      this.device, isTainted := device, false;
    }

    method Taint()
      modifies this
      ensures isTainted
    {
      isTainted := true;
    }

    /** A tainted device keeps its reservation unless the release is forced. */
    method ReleaseTo(manager: Manager, force: bool)
      modifies manager
      ensures manager.inFlight == if isTainted && !force then old(manager.inFlight) else Release(old(manager.inFlight), device)
    {
      if !isTainted || force { manager.ReleaseDevice(device); }
    }
  }

  // ----- What one answer guarantees -----

  /** Reserved names are never empty, because they are legal names. */
  predicate NamesNonEmpty(a: Attaching) {
    forall v :: v in a ==> a[v].name != ""
  }

  /** The description shows the volume in a mapping without a device name. */
  predicate ShowsUnnamed(inst: Instance, volume: string)
    requires EbsPresent(inst)
  {
    "" in Attached(inst.mappings) && Attached(inst.mappings)[""] == volume
  }

  lemma ReservedNameIsInUse(inst: Instance, a: Attaching, inUse: map<string, string>, other: string)
    requires EbsPresent(inst) && NoSharedNames(a) && IsInUse(inst, a, inUse) && other in a
    ensures a[other].name in inUse && inUse[a[other].name] == other
  {
    NamesInvertIffUnshared(a);
    var names :| AreNames(a, names) && inUse == Attached(inst.mappings) + names;
    assert names[a[other].name] == other;
  }

  lemma NameOfOtherIsNotAnswered(
    inst: Instance, a: Attaching, volume: string, bad: set<string>, numCards: int,
    inUse: map<string, string>, path: string, d: Device, name: string)
    requires IsPath(inUse, volume, path) && Answers(inst, a, volume, bad, numCards, inUse, path, Some(d))
    requires name in inUse && inUse[name] != volume && name != ""
    ensures d.path != name
  {
    FirstCleanIsFirst(inUse.Keys, bad, 0);
  }

  /** No other volume is ever handed a name that is reserved, however stale the instance description is. */
  lemma ReservedNameIsWithheld(
    inst: Instance, a: Attaching, volume: string, bad: set<string>, numCards: int, d: Device, other: string)
    requires EbsPresent(inst) && NoSharedNames(a)
    requires MayReturn(inst, a, volume, bad, numCards, Some(d))
    requires other in a && other != volume && a[other].name != ""
    ensures d.path != a[other].name
  {
    var inUse, path :|
      IsInUse(inst, a, inUse) && IsPath(inUse, volume, path) && Answers(inst, a, volume, bad, numCards, inUse, path, Some(d));
    ReservedNameIsInUse(inst, a, inUse, other);
    NameOfOtherIsNotAnswered(inst, a, volume, bad, numCards, inUse, path, d, a[other].name);
  }

  /** A fresh device has a legal name that no reservation on the node holds. */
  lemma FreshNameIsLegalAndFree(
    inst: Instance, a: Attaching, volume: string, bad: set<string>, numCards: int, d: Device)
    requires EbsPresent(inst) && MayReturn(inst, a, volume, bad, numCards, Some(d)) && !d.already
    requires forall b :: b in bad ==> Legal(b)
    ensures Legal(d.path) && d.path != "" && forall v :: v in a ==> a[v].name != d.path
  {
    var inUse, path :|
      IsInUse(inst, a, inUse) && IsPath(inUse, volume, path) && Answers(inst, a, volume, bad, numCards, inUse, path, Some(d));
    AllocatedNameIsFreeAndLegal(inUse.Keys, bad, d.path);
  }

  /**
   * A volume that holds a reservation is recognised, so it is never reserved a second name, unless the
   * description shows it without a name.
   */
  lemma ReservedVolumeIsRecognised(
    inst: Instance, a: Attaching, volume: string, bad: set<string>, numCards: int, d: Device)
    requires EbsPresent(inst) && !ShowsUnnamed(inst, volume) && NoSharedNames(a) && NamesNonEmpty(a)
    requires MayReturn(inst, a, volume, bad, numCards, Some(d))
    requires volume in a
    ensures d.already
  {
    var inUse, path :|
      IsInUse(inst, a, inUse) && IsPath(inUse, volume, path) && Answers(inst, a, volume, bad, numCards, inUse, path, Some(d));
    ReservedNameIsInUse(inst, a, inUse, volume);
    var names :| AreNames(a, names) && inUse == Attached(inst.mappings) + names;
    assert "" !in names;
    assert path in inUse && inUse[path] == volume;
  }

  /** Then it may be: the empty name reads as no name, and a second one takes the place of the reserved one. */
  lemma UnnamedVolumeMayBeReservedAgain(inst: Instance, a: Attaching, volume: string, bad: set<string>)
    requires EbsPresent(inst) && ShowsUnnamed(inst, volume) && NamesNonEmpty(a)
    requires exists i: nat :: i < NAME_COUNT && Name(i) !in Attached(inst.mappings) && Name(i) !in bad
                              && forall v :: v in a ==> a[v].name != Name(i)
    ensures exists d :: MayReturn(inst, a, volume, bad, 1, Some(d)) && !d.already
  {
    var names := AllNames(a);
    var inUse := Attached(inst.mappings) + names;
    assert "" !in names;
    assert IsInUse(inst, a, inUse) && IsPath(inUse, volume, "");
    var i: nat :| i < NAME_COUNT && Name(i) !in Attached(inst.mappings) && Name(i) !in bad
                  && forall v :: v in a ==> a[v].name != Name(i);
    assert Clean(inUse.Keys, bad, i);
    FirstCleanIsFirst(inUse.Keys, bad, 0);
    var d := Device(inst.id, Name(FirstClean(inUse.Keys, bad, 0)), volume, false, None);
    assert Answers(inst, a, volume, bad, 1, inUse, "", Some(d));
    assert MayReturn(inst, a, volume, bad, 1, Some(d));
  }

  /**
   * A fresh answer keeps balanced loads balanced: it reserves the least loaded card for a volume that holds no
   * reservation, and one whose mapping is counted already, though its name is hidden, changes no load.
   */
  lemma NewDeviceKeepsBalance(
    inst: Instance, a: Attaching, volume: string, bad: set<string>, numCards: int, d: Device)
    requires EbsPresent(inst) && !ShowsUnnamed(inst, volume) && NoSharedNames(a) && NamesNonEmpty(a)
    requires MayReturn(inst, a, volume, bad, numCards, Some(d)) && !d.already
    requires numCards > 1 && NotCrowded(inst, a, numCards) && Balanced(inst, a, numCards)
    requires forall c :: Load(inst, a, c) >= 1 ==> 0 <= c < numCards
    ensures d.card.Some? && 0 <= d.card.value < numCards
    ensures Balanced(inst, a[volume := Entry(d.path, d.card)], numCards)
  {
    var entry := Entry(d.path, d.card);
    if volume in a { ReservedVolumeIsRecognised(inst, a, volume, bad, numCards, d); }
    FreshCardIsLeastLoaded(inst, a, volume, bad, numCards, d);
    if volume in Counted(inst.mappings) {
      CountedReservationIsNoLoad(inst, a, volume, entry, numCards);
      assert Candidate(inst, a, numCards, d.card.value);
    } else {
      ReservingKeepsBalance(inst, a, numCards, volume, entry);
    }
  }

  lemma FreshCardIsLeastLoaded(
    inst: Instance, a: Attaching, volume: string, bad: set<string>, numCards: int, d: Device)
    requires EbsPresent(inst) && MayReturn(inst, a, volume, bad, numCards, Some(d)) && !d.already
    ensures LeastLoaded(inst, a, numCards, d.card)
  {
  }

  lemma CountedReservationIsNoLoad(inst: Instance, a: Attaching, volume: string, entry: Entry, numCards: int)
    requires volume !in a && volume in Counted(inst.mappings) && Balanced(inst, a, numCards)
    ensures forall c :: Load(inst, a[volume := entry], c) == Load(inst, a, c)
    ensures Balanced(inst, a[volume := entry], numCards)
  {
    ReservedGrows(a, Counted(inst.mappings), volume, entry);
    var after := a[volume := entry];
    forall c ensures Load(inst, after, c) == Load(inst, a, c) {
      assert |ReservedOn(after, Counted(inst.mappings), c)| == |ReservedOn(a, Counted(inst.mappings), c)|;
    }
  }

  // ----- Answers in terms of the mappings themselves -----

  /** The mapping has this name, and no later one repeats it. */
  predicate LastOfName(mappings: seq<Mapping>, i: nat, name: string)
    requires i < |mappings|
  {
    ToString(mappings[i].name) == name && forall j :: i < j < |mappings| ==> ToString(mappings[j].name) != name
  }

  /** The mapping is of this volume. */
  predicate IsOf(m: Mapping, volume: string) {
    m.ebs.Some? && ToString(m.ebs.value.volumeId) == volume
  }

  /** The names recorded are those of the mappings, each with the volume of the last mapping that has it. */
  lemma {:induction false} AttachedMeans(mappings: seq<Mapping>, name: string)
    requires forall i :: 0 <= i < |mappings| ==> mappings[i].ebs.Some?
    ensures name in Attached(mappings) <==> exists i :: 0 <= i < |mappings| && ToString(mappings[i].name) == name
    ensures name in Attached(mappings) ==>
              exists i :: 0 <= i < |mappings| && LastOfName(mappings, i, name) && IsOf(mappings[i], Attached(mappings)[name])
    ensures forall i :: 0 <= i < |mappings| && LastOfName(mappings, i, name) ==>
              name in Attached(mappings) && IsOf(mappings[i], Attached(mappings)[name])
  {
    if mappings != [] {
      var last := |mappings| - 1;
      var prefix := mappings[..last];
      AttachedMeans(prefix, name);
      assert forall i :: 0 <= i < last ==> prefix[i] == mappings[i];
      if ToString(mappings[last].name) == name {
        assert LastOfName(mappings, last, name);
      } else if name in Attached(prefix) {
        var i :| 0 <= i < last && LastOfName(prefix, i, name) && IsOf(prefix[i], Attached(prefix)[name]);
        assert LastOfName(mappings, i, name);
      }
      forall i | 0 <= i < |mappings| && LastOfName(mappings, i, name)
        ensures name in Attached(mappings) && IsOf(mappings[i], Attached(mappings)[name])
      {
        if i < last { assert LastOfName(prefix, i, name); }
      }
    }
  }

  /** A fresh device's name is none that the instance shows. */
  lemma FreshNameIsNotShown(
    inst: Instance, a: Attaching, volume: string, bad: set<string>, numCards: int, d: Device, i: nat)
    requires EbsPresent(inst) && MayReturn(inst, a, volume, bad, numCards, Some(d)) && !d.already
    requires i < |inst.mappings|
    ensures ToString(inst.mappings[i].name) != d.path
  {
    var inUse, path :|
      IsInUse(inst, a, inUse) && IsPath(inUse, volume, path) && Answers(inst, a, volume, bad, numCards, inUse, path, Some(d));
    FirstCleanIsFirst(inUse.Keys, bad, 0);
    AttachedMeans(inst.mappings, ToString(inst.mappings[i].name));
    assert d.path !in inUse;
  }

  /** The volume is shown under this name by a mapping that no later one and no reservation overrides. */
  ghost predicate ShownPlainly(inst: Instance, a: Attaching, volume: string, name: string) {
    && name != ""
    && (exists i :: 0 <= i < |inst.mappings| && LastOfName(inst.mappings, i, name) && IsOf(inst.mappings[i], volume))
    && forall v :: v in a ==> a[v].name != name
  }

  /** No mapping shows the volume without a name. */
  predicate NeverUnnamed(inst: Instance, volume: string) {
    forall i :: 0 <= i < |inst.mappings| && ToString(inst.mappings[i].name) == "" ==> !IsOf(inst.mappings[i], volume)
  }

  lemma PlainlyShownHasPath(
    inst: Instance, a: Attaching, volume: string, name: string, inUse: map<string, string>, path: string)
    requires EbsPresent(inst) && IsInUse(inst, a, inUse) && IsPath(inUse, volume, path)
    requires ShownPlainly(inst, a, volume, name) && NeverUnnamed(inst, volume) && NamesNonEmpty(a)
    ensures path != ""
  {
    AttachedMeans(inst.mappings, name);
    AttachedMeans(inst.mappings, "");
    var names :| AreNames(a, names) && inUse == Attached(inst.mappings) + names;
    assert name !in names && "" !in names;
    assert inUse[name] == volume;
  }

  /** A volume that the instance shows plainly is answered as already there. */
  lemma ShownVolumeIsRecognised(
    inst: Instance, a: Attaching, volume: string, bad: set<string>, numCards: int, r: Option<Device>, name: string)
    requires EbsPresent(inst) && MayReturn(inst, a, volume, bad, numCards, r)
    requires ShownPlainly(inst, a, volume, name) && NeverUnnamed(inst, volume) && NamesNonEmpty(a)
    ensures r.Some? && r.value.already
  {
    var inUse, path :|
      IsInUse(inst, a, inUse) && IsPath(inUse, volume, path) && Answers(inst, a, volume, bad, numCards, inUse, path, r);
    PlainlyShownHasPath(inst, a, volume, name, inUse, path);
  }

  /** The name is the volume's reservation or that of a mapping of the volume. */
  ghost predicate ReservedOrShown(inst: Instance, a: Attaching, volume: string, name: string) {
    || (volume in a && a[volume].name == name)
    || exists i :: 0 <= i < |inst.mappings| && ToString(inst.mappings[i].name) == name && IsOf(inst.mappings[i], volume)
  }

  lemma RecordedIsReservedOrShown(inst: Instance, a: Attaching, volume: string, name: string, inUse: map<string, string>)
    requires EbsPresent(inst) && IsInUse(inst, a, inUse) && name in inUse && inUse[name] == volume
    ensures ReservedOrShown(inst, a, volume, name)
  {
    AttachedMeans(inst.mappings, name);
    var names :| AreNames(a, names) && inUse == Attached(inst.mappings) + names;
  }

  /** An answer that the volume is already there has a name that says so, and the card of its first mapping. */
  lemma RecognisedIsReservedOrShown(
    inst: Instance, a: Attaching, volume: string, bad: set<string>, numCards: int, d: Device)
    requires EbsPresent(inst) && MayReturn(inst, a, volume, bad, numCards, Some(d)) && d.already
    ensures d.path != "" && ReservedOrShown(inst, a, volume, d.path)
    ensures forall i :: 0 <= i < |inst.mappings| && IsFirstOf(inst.mappings, i, volume) ==> d.card == inst.mappings[i].ebs.value.card
    ensures (forall i :: 0 <= i < |inst.mappings| ==> inst.mappings[i].ebs.value.volumeId != Some(volume)) ==> d.card == None
  {
    var inUse, path :|
      IsInUse(inst, a, inUse) && IsPath(inUse, volume, path) && Answers(inst, a, volume, bad, numCards, inUse, path, Some(d));
    RecordedIsReservedOrShown(inst, a, volume, path, inUse);
    FirstMappingDecides(inst.mappings, volume);
  }

  /** The first mapping that names this volume. */
  predicate IsFirstOf(mappings: seq<Mapping>, i: nat, volume: string)
    requires i < |mappings|
  {
    && mappings[i].ebs.Some? && mappings[i].ebs.value.volumeId == Some(volume)
    && forall j :: 0 <= j < i ==> mappings[j].ebs.None? || mappings[j].ebs.value.volumeId != Some(volume)
  }

  lemma {:induction false} FirstMappingDecides(mappings: seq<Mapping>, volume: string)
    ensures forall i :: 0 <= i < |mappings| && IsFirstOf(mappings, i, volume) ==>
              CardOfExisting(mappings, volume) == mappings[i].ebs.value.card
    ensures (forall i :: 0 <= i < |mappings| ==> mappings[i].ebs.None? || mappings[i].ebs.value.volumeId != Some(volume)) ==>
              CardOfExisting(mappings, volume) == None
  {
    if mappings != [] {
      var rest := mappings[1..];
      FirstMappingDecides(rest, volume);
      forall i | 0 <= i < |mappings| && IsFirstOf(mappings, i, volume)
        ensures CardOfExisting(mappings, volume) == mappings[i].ebs.value.card
      {
        if i > 0 { assert IsFirstOf(rest, i - 1, volume) && rest[i - 1] == mappings[i]; }
      }
    }
  }

  /** GetDevice answers with a name that says so, and with none only if no plain mapping and no reservation has one. */
  lemma GetAnswersShownOrReserved(inst: Instance, a: Attaching, volume: string, d: Device)
    requires EbsPresent(inst) && MayGet(inst, a, volume, d)
    ensures d.already <==> d.path != ""
    ensures d.path != "" ==> ReservedOrShown(inst, a, volume, d.path)
    ensures NeverUnnamed(inst, volume) && NamesNonEmpty(a) && (exists name :: ShownPlainly(inst, a, volume, name)) ==> d.path != ""
    ensures NeverUnnamed(inst, volume) && NamesNonEmpty(a) && NoSharedNames(a) && volume in a ==> d.path != ""
  {
    var inUse :| IsInUse(inst, a, inUse) && IsPath(inUse, volume, d.path);
    if d.path != "" { RecordedIsReservedOrShown(inst, a, volume, d.path, inUse); }
    if NeverUnnamed(inst, volume) && NamesNonEmpty(a) {
      if name :| ShownPlainly(inst, a, volume, name) { PlainlyShownHasPath(inst, a, volume, name, inUse, d.path); }
      if NoSharedNames(a) && volume in a { ReservedHasPath(inst, a, volume, inUse, d.path); }
    }
  }

  lemma ReservedHasPath(inst: Instance, a: Attaching, volume: string, inUse: map<string, string>, path: string)
    requires EbsPresent(inst) && IsInUse(inst, a, inUse) && IsPath(inUse, volume, path)
    requires NoSharedNames(a) && volume in a && NeverUnnamed(inst, volume) && NamesNonEmpty(a)
    ensures path != ""
  {
    ReservedNameIsInUse(inst, a, inUse, volume);
    AttachedMeans(inst.mappings, "");
    var names :| AreNames(a, names) && inUse == Attached(inst.mappings) + names;
    assert "" !in names;
  }

  /** The instance shows the volume under this name, and no reservation hides it. */
  ghost predicate ShownAs(inst: Instance, a: Attaching, volume: string, n: string)
    requires EbsPresent(inst)
  {
    n in Attached(inst.mappings) && Attached(inst.mappings)[n] == volume && forall w :: w in a ==> a[w].name != n
  }

  lemma GetMayAnswerShownName(inst: Instance, a: Attaching, volume: string, n: string)
    requires EbsPresent(inst) && ShownAs(inst, a, volume, n)
    ensures exists d :: MayGet(inst, a, volume, d) && d.path == n
  {
    var names := AllNames(a);
    var inUse := Attached(inst.mappings) + names;
    assert n !in names;
    assert IsInUse(inst, a, inUse) && IsPath(inUse, volume, n);
    var d := Device(inst.id, n, volume, n != "", if n != "" then CardOfExisting(inst.mappings, volume) else None);
    assert MayGet(inst, a, volume, d);
  }

  lemma GetAnswersReservedOrShownName(inst: Instance, a: Attaching, volume: string, d: Device)
    requires EbsPresent(inst) && NoSharedNames(a) && volume in a && MayGet(inst, a, volume, d)
    ensures d.path == a[volume].name || ShownAs(inst, a, volume, d.path)
  {
    NamesInvertIffUnshared(a);
    var inUse :| IsInUse(inst, a, inUse) && IsPath(inUse, volume, d.path);
    var names :| AreNames(a, names) && inUse == Attached(inst.mappings) + names;
    assert inUse[a[volume].name] == volume;
    assert d.path in inUse && inUse[d.path] == volume;
    if d.path !in names {
      assert forall w :: w in a ==> a[w].name in names;
    }
  }

  /**
   * GetDevice is sure to answer with the reserved name, so that a forced release frees it, exactly when
   * the instance shows the volume under no other name.
   */
  lemma GetFindsReservationIff(inst: Instance, a: Attaching, volume: string)
    requires EbsPresent(inst) && NoSharedNames(a) && volume in a
    ensures (forall d :: MayGet(inst, a, volume, d) ==> d.path == a[volume].name)
            <==> forall n :: !ShownAs(inst, a, volume, n)
  {
    if n :| ShownAs(inst, a, volume, n) {
      GetMayAnswerShownName(inst, a, volume, n);
    } else {
      forall d | MayGet(inst, a, volume, d) ensures d.path == a[volume].name {
        GetAnswersReservedOrShownName(inst, a, volume, d);
      }
    }
  }

  ghost function AllNames(a: Attaching): (names: map<string, string>)
    ensures AreNames(a, names)
  {
    map n | n in (set u | u in a :: a[u].name) :: SomeHolder(a, n)
  }
}
