/**
 * Parsing the mutable parameters of a modify request, parseModifyVolumeParameters in
 * pkg/driver/controller_modify_volume.go, with the reserved tag keys of pkg/driver/validation.go.
 *
 * Go visits a map in no particular order, so the parser may take the keys in any order. Number parsing
 * and the execution of a template are parameters of the model; how tag specifications are split and put
 * together, pkg/util/template/template.go, is part of it.
 */
module ModifyParameters {

  import opened Base
  import opened Sizes
  import opened Coalescer
  import opened ModifyRequest

  /**
   * A parameter key, as the parser's switch tells them apart. The named keys stand for "iops",
   * "throughput", "type", "volumeType", "iopspergb", "allowautoiopsincreaseonmodify" and the three
   * "csi.storage.k8s.io/" keys; a tag key is "tagSpecification" or "tagDeletion" and a suffix.
   */
  datatype Key =
    | Iops | Throughput | Type | DeprecatedType | Ratio | AllowIncrease
    | PvcName | PvcNamespace | PvName
    | AddTag(suffix: string)
    | DeleteTag(suffix: string)
    | Unknown(name: string)

  type Params = map<Key, string>

  datatype PVProps = PVProps(pvcName: string, pvcNamespace: string, pvName: string)

  datatype ParseEnv = ParseEnv(
    driverName: string,
    parseInt: string -> Option<Int32>,
    execTemplate: (string, PVProps) -> Option<string>)

  // ----- Tag specifications -----

  /** What is before and after the first equals sign. */
  function SplitAtEquals(s: string): Option<(string, string)> {
    if s == [] then None
    else if s[0] == '=' then Some(("", s[1..]))
    else
      var rest := SplitAtEquals(s[1..]);
      if rest.None? then None else Some(([s[0]] + rest.value.0, rest.value.1))
  }

  /** The tag that one specification stands for. */
  function TagOf(env: ParseEnv, raw: string, props: PVProps): Option<(string, string)> {
    var parts := SplitAtEquals(raw);
    if parts.None? then None
    else
      var value := env.execTemplate(parts.value.1, props);
      if value.None? then None else Some((parts.value.0, value.value))
  }

  /** All of them together; of two specifications of one key the later one wins. */
  function Evaluate(env: ParseEnv, raws: seq<string>, props: PVProps): Option<map<string, string>> {
    if raws == [] then Some(map[])
    else
      var earlier := Evaluate(env, raws[..|raws| - 1], props);
      var tag := TagOf(env, raws[|raws| - 1], props);
      if earlier.None? || tag.None? then None else Some(earlier.value[tag.value.0 := tag.value.1])
  }

  method EvaluateTemplates(env: ParseEnv, raws: seq<string>, props: PVProps) returns (md: Option<map<string, string>>)
    ensures md == Evaluate(env, raws, props)
  {
    var tags: map<string, string> := map[];
    for i := 0 to |raws|
      invariant Evaluate(env, raws[..i], props) == Some(tags)
    {
      assert raws[..i + 1][..i] == raws[..i];
      var tag := TagOf(env, raws[i], props);
      if tag.None? {
        FailureStays(env, raws, props, i + 1);
        return None;
      }
      tags := tags[tag.value.0 := tag.value.1];
    }
    assert raws[..|raws|] == raws;
    return Some(tags);
  }

  lemma {:induction false} FailureStays(env: ParseEnv, raws: seq<string>, props: PVProps, i: nat)
    requires i <= |raws| && Evaluate(env, raws[..i], props).None?
    ensures Evaluate(env, raws, props).None?
  {
    if i == |raws| {
      assert raws[..i] == raws;
    } else {
      assert raws[..|raws| - 1][..i] == raws[..i];
      FailureStays(env, raws[..|raws| - 1], props, i);
    }
  }

  /** Evaluation succeeds exactly when every specification does, and sets exactly their keys. */
  lemma {:induction false} EvaluateMeans(env: ParseEnv, raws: seq<string>, props: PVProps)
    ensures Evaluate(env, raws, props).Some? <==> forall i :: 0 <= i < |raws| ==> TagOf(env, raws[i], props).Some?
    ensures var md := Evaluate(env, raws, props);
            md.Some? ==> forall key :: key in md.value <==>
              exists i :: 0 <= i < |raws| && TagOf(env, raws[i], props).Some? && TagOf(env, raws[i], props).value.0 == key
  {
    if raws != [] {
      var last := |raws| - 1;
      EvaluateMeans(env, raws[..last], props);
      assert forall i :: 0 <= i < last ==> raws[..last][i] == raws[i];
    }
  }

  predicate SpecifiesKey(env: ParseEnv, raw: string, props: PVProps, key: string) {
    TagOf(env, raw, props).Some? && TagOf(env, raw, props).value.0 == key
  }

  /** The last specification of a key decides its value. */
  lemma {:induction false} LastSpecificationWins(env: ParseEnv, raws: seq<string>, props: PVProps, key: string, m: nat)
    requires Evaluate(env, raws, props).Some? && m < |raws| && SpecifiesKey(env, raws[m], props, key)
    requires forall j :: m < j < |raws| ==> !SpecifiesKey(env, raws[j], props, key)
    ensures var md := Evaluate(env, raws, props).value;
            key in md && md[key] == TagOf(env, raws[m], props).value.1
  {
    if m < |raws| - 1 {
      assert !SpecifiesKey(env, raws[|raws| - 1], props, key);
      LastSpecificationWins(env, raws[..|raws| - 1], props, key, m);
    }
  }

  lemma {:induction false} LastSpecification(env: ParseEnv, raws: seq<string>, props: PVProps, key: string, i: nat)
    returns (m: nat)
    requires i < |raws| && SpecifiesKey(env, raws[i], props, key)
    ensures m < |raws| && SpecifiesKey(env, raws[m], props, key)
    ensures forall j :: m < j < |raws| ==> !SpecifiesKey(env, raws[j], props, key)
  {
    var last := |raws| - 1;
    if SpecifiesKey(env, raws[last], props, key) {
      m := last;
    } else {
      m := LastSpecification(env, raws[..last], props, key, i);
      assert forall j :: m < j < last ==> raws[..last][j] == raws[j];
    }
  }

  function RatioTag(env: ParseEnv): string {
    env.driverName + "/IOPSPerGb"
  }

  function AllowIncreaseTag(env: ParseEnv): string {
    env.driverName + "/AllowAutoIOPSIncreaseOnModify"
  }

  /** Tag keys users may neither set nor delete. */
  predicate Reserved(env: ParseEnv, key: string) {
    || key in {"CSIVolumeName", "CSIVolumeSnapshotName", "ebs.csi.aws.com/cluster-name"}
    || "kubernetes.io" <= key
    || env.driverName + "/" <= key
  }

  predicate IsPlain(key: Key) {
    !key.AddTag? && !key.DeleteTag? && !key.Unknown?
  }

  /** A parameter that makes the whole request invalid, whatever the others are. */
  predicate BadParameter(env: ParseEnv, key: Key, value: string) {
    || (key in {Iops, Throughput, Ratio} && env.parseInt(value).None?)
    || (key.DeleteTag? && Reserved(env, value))
    || key.Unknown?
  }

  // ----- What the parameters seen so far amount to -----

  function Number(env: ParseEnv, params: Params, seen: set<Key>, key: Key): Int32
    requires seen <= params.Keys
  {
    if key in seen && env.parseInt(params[key]).Some? then env.parseInt(params[key]).value else 0
  }

  function Text(params: Params, seen: set<Key>, key: Key): string
    requires seen <= params.Keys
  {
    if key in seen then params[key] else ""
  }

  /** The preferred key wins over the deprecated one even if it has not been visited yet. */
  function TypeOf(params: Params, seen: set<Key>): string
    requires seen <= params.Keys
  {
    if Type in seen then params[Type]
    else if Type in params then ""
    else Text(params, seen, DeprecatedType)
  }

  function DiskOf(env: ParseEnv, params: Params, seen: set<Key>): DiskOptions
    requires seen <= params.Keys
  {
    DiskOptions(
      TypeOf(params, seen),
      Number(env, params, seen, Iops),
      Number(env, params, seen, Throughput),
      Number(env, params, seen, Ratio),
      Text(params, seen, AllowIncrease) == "true")
  }

  function PropsOf(params: Params, seen: set<Key>): PVProps
    requires seen <= params.Keys
  {
    PVProps(Text(params, seen, PvcName), Text(params, seen, PvcNamespace), Text(params, seen, PvName))
  }

  /** Tags written without validation, because their keys are the driver's own. */
  function OwnTags(env: ParseEnv, params: Params, seen: set<Key>): map<string, string>
    requires seen <= params.Keys
  {
    (if Ratio in seen then map[RatioTag(env) := params[Ratio]] else map[])
    + (if AllowIncrease in seen then map[AllowIncreaseTag(env) := params[AllowIncrease]] else map[])
  }

  function Values(params: Params, keys: seq<Key>): seq<string>
    requires forall i :: 0 <= i < |keys| ==> keys[i] in params
  {
    seq(|keys|, i requires 0 <= i < |keys| => params[keys[i]])
  }

  /** `keys` lists the members of `s`, each once. */
  ghost predicate Lists(keys: seq<Key>, s: set<Key>) {
    && (forall i, j :: 0 <= i < j < |keys| ==> keys[i] != keys[j])
    && (forall i :: 0 <= i < |keys| ==> keys[i] in s)
    && (forall key :: key in s ==> key in keys)
  }

  function AddKeys(seen: set<Key>): set<Key> {
    set key | key in seen && key.AddTag?
  }

  function DeleteKeys(seen: set<Key>): set<Key> {
    set key | key in seen && key.DeleteTag?
  }

  /**
   * `r` is what the parser makes of `params` when it meets the tag keys in the orders `adds` and
   * `deletes`.
   */
  ghost predicate ParsedFrom(env: ParseEnv, params: Params, adds: seq<Key>, deletes: seq<Key>, r: Request) {
    && (forall key :: key in params ==> !BadParameter(env, key, params[key]))
    && Lists(adds, AddKeys(params.Keys))
    && Lists(deletes, DeleteKeys(params.Keys))
    && r.newSize == 0
    && r.disk == DiskOf(env, params, params.Keys)
    && var user := Evaluate(env, Values(params, adds), PropsOf(params, params.Keys));
       && user.Some?
       && (forall key :: key in user.value ==> !Reserved(env, key))
       && r.tags == TagOptions(Some(user.value + OwnTags(env, params, params.Keys)), Some(Values(params, deletes)))
  }

  // ----- The parser -----

  /** The parser's local variables. */
  datatype Locals = Locals(
    disk: DiskOptions,
    props: PVProps,
    ownTags: map<string, string>,
    rawTagsToAdd: seq<string>,
    tagsToDelete: seq<string>)

  /** The default case of the switch: tag specifications and deletions by prefix. */
  function VisitTag(env: ParseEnv, l: Locals, key: Key, value: string): Result<Locals, string> {
    match key
    case AddTag(_) => Ok(l.(rawTagsToAdd := l.rawTagsToAdd + [value]))
    case DeleteTag(_) =>
      if Reserved(env, value) then Err("Cannot delete reserved tag")
      else Ok(l.(tagsToDelete := l.tagsToDelete + [value]))
    case _ => Err("Invalid mutable parameter key")
  }

  /** One pass through the switch on the key. */
  function Visit(env: ParseEnv, params: Params, l: Locals, key: Key): Result<Locals, string>
    requires key in params
  {
    var value := params[key];
    var number := env.parseInt(value);
    match key
    case Iops =>
      if number.None? then Err("Could not parse IOPS") else Ok(l.(disk := l.disk.(iops := number.value)))
    case Throughput =>
      if number.None? then Err("Could not parse throughput") else Ok(l.(disk := l.disk.(throughput := number.value)))
    case DeprecatedType =>
      if Type in params then Ok(l) else Ok(l.(disk := l.disk.(volumeType := value)))
    case Type => Ok(l.(disk := l.disk.(volumeType := value)))
    case Ratio =>
      if number.None? then Err("Could not parse IopsPerGb")
      else Ok(l.(ownTags := l.ownTags[RatioTag(env) := value], disk := l.disk.(iopsPerGB := number.value)))
    case AllowIncrease =>
      Ok(l.(ownTags := l.ownTags[AllowIncreaseTag(env) := value],
            disk := l.disk.(allowIopsIncreaseOnResize := value == "true")))
    case PvcName => Ok(l.(props := l.props.(pvcName := value)))
    case PvcNamespace => Ok(l.(props := l.props.(pvcNamespace := value)))
    case PvName => Ok(l.(props := l.props.(pvName := value)))
    case _ => VisitTag(env, l, key, value)
  }

  /** The locals reflect exactly the keys seen so far, the tag keys having come in these orders. */
  ghost predicate Reflects(
    env: ParseEnv, params: Params, seen: set<Key>, adds: seq<Key>, deletes: seq<Key>, l: Locals)
    requires seen <= params.Keys
  {
    && l.disk == DiskOf(env, params, seen)
    && l.props == PropsOf(params, seen)
    && l.ownTags == OwnTags(env, params, seen)
    && Lists(adds, AddKeys(seen)) && l.rawTagsToAdd == Values(params, adds)
    && Lists(deletes, DeleteKeys(seen)) && l.tagsToDelete == Values(params, deletes)
  }

  lemma ListsGrow(params: Params, keys: seq<Key>, s: set<Key>, key: Key)
    requires Lists(keys, s) && s <= params.Keys && key in params && key !in s
    ensures Lists(keys + [key], s + {key})
    ensures Values(params, keys + [key]) == Values(params, keys) + [params[key]]
  {
  }

  lemma PlainKeepsDisk(env: ParseEnv, params: Params, seen: set<Key>, l: Locals, key: Key)
    requires seen <= params.Keys && key in params && key !in seen && IsPlain(key)
    requires l.disk == DiskOf(env, params, seen)
    ensures Visit(env, params, l, key).Err? <==> BadParameter(env, key, params[key])
    ensures var r := Visit(env, params, l, key);
            r.Ok? ==> r.value.disk == DiskOf(env, params, seen + {key})
  {
  }

  lemma PlainKeepsOwnTags(env: ParseEnv, params: Params, seen: set<Key>, l: Locals, key: Key)
    requires seen <= params.Keys && key in params && key !in seen && IsPlain(key)
    requires l.ownTags == OwnTags(env, params, seen)
    requires Visit(env, params, l, key).Ok?
    ensures Visit(env, params, l, key).value.ownTags == OwnTags(env, params, seen + {key})
  {
    assert RatioTag(env)[|env.driverName| + 1] == 'I';
    assert AllowIncreaseTag(env)[|env.driverName| + 1] == 'A';
  }

  lemma PlainReflects(
    env: ParseEnv, params: Params, seen: set<Key>, adds: seq<Key>, deletes: seq<Key>, l: Locals, key: Key)
    requires seen <= params.Keys && key in params && key !in seen && IsPlain(key)
    requires Reflects(env, params, seen, adds, deletes, l)
    ensures Visit(env, params, l, key).Err? <==> BadParameter(env, key, params[key])
    ensures var r := Visit(env, params, l, key);
            r.Ok? ==> Reflects(env, params, seen + {key}, adds, deletes, r.value)
  {
    PlainKeepsDisk(env, params, seen, l, key);
    if Visit(env, params, l, key).Ok? { PlainKeepsOwnTags(env, params, seen, l, key); }
    assert AddKeys(seen + {key}) == AddKeys(seen) && DeleteKeys(seen + {key}) == DeleteKeys(seen);
  }

  lemma SameButTags(env: ParseEnv, params: Params, seen: set<Key>, key: Key)
    requires seen <= params.Keys && key in params && !IsPlain(key)
    ensures DiskOf(env, params, seen + {key}) == DiskOf(env, params, seen)
    ensures PropsOf(params, seen + {key}) == PropsOf(params, seen)
    ensures OwnTags(env, params, seen + {key}) == OwnTags(env, params, seen)
    ensures AddKeys(seen + {key}) == if key.AddTag? then AddKeys(seen) + {key} else AddKeys(seen)
    ensures DeleteKeys(seen + {key}) == if key.DeleteTag? then DeleteKeys(seen) + {key} else DeleteKeys(seen)
  {
  }

  lemma TagReflects(
    env: ParseEnv, params: Params, seen: set<Key>, adds: seq<Key>, deletes: seq<Key>, l: Locals, key: Key)
    requires seen <= params.Keys && key in params && key !in seen && !IsPlain(key)
    requires Reflects(env, params, seen, adds, deletes, l)
    ensures Visit(env, params, l, key).Err? <==> BadParameter(env, key, params[key])
    ensures var r := Visit(env, params, l, key);
            r.Ok? ==> Reflects(env, params, seen + {key}, Noted(adds, key, key.AddTag?), Noted(deletes, key, key.DeleteTag?), r.value)
  {
    SameButTags(env, params, seen, key);
    if key.AddTag? { ListsGrow(params, adds, AddKeys(seen), key); }
    if key.DeleteTag? { ListsGrow(params, deletes, DeleteKeys(seen), key); }
  }

  lemma VisitReflects(
    env: ParseEnv, params: Params, seen: set<Key>, adds: seq<Key>, deletes: seq<Key>, l: Locals, key: Key)
    requires seen <= params.Keys && key in params && key !in seen
    requires Reflects(env, params, seen, adds, deletes, l)
    ensures Visit(env, params, l, key).Err? <==> BadParameter(env, key, params[key])
    ensures var r := Visit(env, params, l, key);
            r.Ok? ==> Reflects(env, params, seen + {key}, Noted(adds, key, key.AddTag?), Noted(deletes, key, key.DeleteTag?), r.value)
  {
    if IsPlain(key) {
      PlainReflects(env, params, seen, adds, deletes, l, key);
    } else {
      TagReflects(env, params, seen, adds, deletes, l, key);
    }
  }

  function Noted(keys: seq<Key>, key: Key, note: bool): seq<Key> {
    if note then keys + [key] else keys
  }

  method VisitNext(
    env: ParseEnv, params: Params, l: Locals, key: Key, ghost seen: set<Key>, ghost adds: seq<Key>, ghost deletes: seq<Key>)
    returns (visited: Result<Locals, string>)
    requires seen <= params.Keys && key in params && key !in seen
    requires Reflects(env, params, seen, adds, deletes, l)
    ensures visited.Err? <==> BadParameter(env, key, params[key])
    ensures visited.Ok? ==>
              Reflects(env, params, seen + {key}, Noted(adds, key, key.AddTag?), Noted(deletes, key, key.DeleteTag?), visited.value)
  {
    visited := Visit(env, params, l, key);
    VisitReflects(env, params, seen, adds, deletes, l, key);
  }

  const NOTHING := Locals(NO_OPTIONS, PVProps("", "", ""), map[], [], [])

  lemma NothingSeen(env: ParseEnv, params: Params)
    ensures Reflects(env, params, {}, [], [], NOTHING)
  {
  }

  /** The loop over the parameters, in whatever order the map yields them. */
  method Collect(env: ParseEnv, params: Params)
    returns (result: Result<Locals, string>, ghost adds: seq<Key>, ghost deletes: seq<Key>)
    ensures result.Ok? ==>
              && (forall key :: key in params ==> !BadParameter(env, key, params[key]))
              && Reflects(env, params, params.Keys, adds, deletes, result.value)
    ensures result.Err? ==> exists key :: key in params && BadParameter(env, key, params[key])
  {
    var l := NOTHING;
    adds, deletes := [], [];
    NothingSeen(env, params);
    ghost var seen: set<Key> := {};
    var left := params.Keys;
    while left != {}
      invariant seen == params.Keys - left && left <= params.Keys
      invariant forall key :: key in seen ==> !BadParameter(env, key, params[key])
      invariant Reflects(env, params, seen, adds, deletes, l)
      decreases |left|
    {
      var key :| key in left;
      var visited := VisitNext(env, params, l, key, seen, adds, deletes);
      adds, deletes := Noted(adds, key, key.AddTag?), Noted(deletes, key, key.DeleteTag?);
      if visited.Err? {
        result := Err(visited.error);
        return;
      }
      l := visited.value;
      left := left - {key};
      seen := seen + {key};
    }
    assert seen == params.Keys;
    result := Ok(l);
  }

  /** The parameters as they are, before any is visited: each good in itself, and no tag of a reserved key. */
  ghost predicate Valid(env: ParseEnv, params: Params) {
    && (forall key :: key in params ==> !BadParameter(env, key, params[key]))
    && (forall key :: key in AddKeys(params.Keys) ==> GoodTag(env, params, key))
  }

  predicate GoodTag(env: ParseEnv, params: Params, key: Key)
    requires key in params
  {
    var tag := TagOf(env, params[key], PropsOf(params, params.Keys));
    tag.Some? && !Reserved(env, tag.value.0)
  }

  /** Whether the tags evaluate and validate does not depend on the order in which they were met. */
  lemma TagsAreGoodInAnyOrder(env: ParseEnv, params: Params, adds: seq<Key>)
    requires Lists(adds, AddKeys(params.Keys))
    ensures var user := Evaluate(env, Values(params, adds), PropsOf(params, params.Keys));
            user.Some? && (forall key :: key in user.value ==> !Reserved(env, key))
            <==> forall key :: key in AddKeys(params.Keys) ==> GoodTag(env, params, key)
  {
    var raws, props := Values(params, adds), PropsOf(params, params.Keys);
    EvaluateMeans(env, raws, props);
    var user := Evaluate(env, raws, props);
    assert forall i :: 0 <= i < |adds| ==> raws[i] == params[adds[i]];
    if user.Some? && (forall key :: key in user.value ==> !Reserved(env, key)) {
      forall key | key in AddKeys(params.Keys) ensures GoodTag(env, params, key) {
        var i :| 0 <= i < |adds| && adds[i] == key;
        assert TagOf(env, raws[i], props).value.0 in user.value;
      }
    }
  }

  /** Parsing succeeds exactly on valid parameters, whatever the map order. */
  method ParseModifyVolumeParameters(env: ParseEnv, params: Params) returns (result: Result<Request, string>)
    ensures result.Ok? <==> Valid(env, params)
    ensures result.Ok? ==> exists adds, deletes :: ParsedFrom(env, params, adds, deletes, result.value)
  {
    var collected;
    ghost var adds, deletes;
    collected, adds, deletes := Collect(env, params);
    if collected.Err? {
      result := Err(collected.error);
      return;
    }
    TagsAreGoodInAnyOrder(env, params, adds);
    var l := collected.value;
    var user := EvaluateTemplates(env, l.rawTagsToAdd, l.props);
    if user.None? {
      result := Err("Error interpolating tag value");
      return;
    }
    if exists key :: key in user.value.Keys && Reserved(env, key) {
      result := Err("Invalid tag value");
      return;
    }
    result := Ok(Request(0, l.disk, TagOptions(Some(user.value + l.ownTags), Some(l.tagsToDelete))));
    assert ParsedFrom(env, params, adds, deletes, result.value);
  }

  // ----- The ratio tag -----

  /** Where a request in a batch came from: an expansion, or parsed parameters. */
  datatype Source =
    | Expansion(newSize: Int64)
    | Parameters(params: Params, adds: seq<Key>, deletes: seq<Key>)

  ghost predicate ComesFrom(env: ParseEnv, source: Source, r: Request) {
    match source
    case Expansion(newSize) => r == ZERO.(newSize := newSize)
    case Parameters(params, adds, deletes) => ParsedFrom(env, params, adds, deletes, r)
  }

  predicate SetsRatio(source: Source) {
    source.Parameters? && Ratio in source.params
  }

  predicate CarriesRatio(env: ParseEnv, tags: TagOptions, value: string) {
    tags.toAdd.Some? && RatioTag(env) in tags.toAdd.value && tags.toAdd.value[RatioTag(env)] == value
  }

  /** No request, parsed or not, can delete the ratio tag or set it by any other means. */
  lemma RatioTagIsOwn(env: ParseEnv, source: Source, r: Request)
    requires ComesFrom(env, source, r)
    ensures SetsRatio(source) ==> HasTags(r.tags) && CarriesRatio(env, r.tags, source.params[Ratio])
    ensures r.tags.toAdd.Some? && RatioTag(env) in r.tags.toAdd.value ==> SetsRatio(source)
    ensures r.tags.toDelete.Some? ==> RatioTag(env) !in r.tags.toDelete.value
  {
    if source.Parameters? {
      OwnTagsAreReserved(env);
      var deleted := r.tags.toDelete.value;
      forall i | 0 <= i < |deleted| ensures deleted[i] != RatioTag(env) {
        assert !BadParameter(env, source.deletes[i], source.params[source.deletes[i]]);
      }
    }
  }

  lemma OwnTagsAreReserved(env: ParseEnv)
    ensures Reserved(env, RatioTag(env)) && Reserved(env, AllowIncreaseTag(env))
    ensures RatioTag(env) != AllowIncreaseTag(env)
  {
    assert env.driverName + "/" <= RatioTag(env) && env.driverName + "/" <= AllowIncreaseTag(env);
    assert RatioTag(env)[|env.driverName| + 1] == 'I';
    assert AllowIncreaseTag(env)[|env.driverName| + 1] == 'A';
  }

  /**
   * The merge drops the ratio field of every request but the first, yet the merged tags carry the ratio
   * exactly when some accepted request set one, with that request's value, and never delete it.
   */
  lemma RatioReachesMergedTags(env: ParseEnv, sources: seq<Source>, rs: seq<Request>)
    requires rs != [] && |sources| == |rs| && AllMerged(Merge, rs)
    requires forall i :: 0 <= i < |rs| ==> ComesFrom(env, sources[i], rs[i])
    ensures var tags := Fold(Merge, rs).tags;
            && ((exists i :: 0 <= i < |rs| && SetsRatio(sources[i]))
                <==> tags.toAdd.Some? && RatioTag(env) in tags.toAdd.value)
            && (forall i :: 0 <= i < |rs| && SetsRatio(sources[i]) ==>
                  CarriesRatio(env, tags, sources[i].params[Ratio]))
            && (tags.toDelete.Some? ==> RatioTag(env) !in tags.toDelete.value)
  {
    MergeMeetsSpec();
    RatioReachesTags(env, sources, rs, Merge);
  }

  lemma RatioReachesTags(
    env: ParseEnv, sources: seq<Source>, rs: seq<Request>, merge: (Request, Request) -> Merged<Request>)
    requires MeetsSpec(merge)
    requires rs != [] && |sources| == |rs| && AllMerged(merge, rs)
    requires forall i :: 0 <= i < |rs| ==> ComesFrom(env, sources[i], rs[i])
    ensures var tags := Fold(merge, rs).tags;
            && ((exists i :: 0 <= i < |rs| && SetsRatio(sources[i]))
                <==> tags.toAdd.Some? && RatioTag(env) in tags.toAdd.value)
            && (forall i :: 0 <= i < |rs| && SetsRatio(sources[i]) ==>
                  CarriesRatio(env, tags, sources[i].params[Ratio]))
            && (tags.toDelete.Some? ==> RatioTag(env) !in tags.toDelete.value)
  {
    var tags := Fold(merge, rs).tags;
    FoldGrantsExactly(merge, rs);
    forall i | 0 <= i < |rs| && SetsRatio(sources[i])
      ensures CarriesRatio(env, tags, sources[i].params[Ratio])
    {
      RatioTagIsOwn(env, sources[i], rs[i]);
      assert Grants(Fold(merge, rs), rs[i]);
    }
    if HasTags(tags) {
      var i :| 0 <= i < |rs| && rs[i].tags == tags;
      RatioTagIsOwn(env, sources[i], rs[i]);
    }
  }

  // ----- Repeating identical parameters -----

  lemma {:induction false} ListsIsMultiset(keys: seq<Key>, s: set<Key>)
    requires Lists(keys, s)
    ensures multiset(keys) == multiset(s)
  {
    if keys == [] {
      assert s == {};
    } else {
      var last := |keys| - 1;
      var rest := s - {keys[last]};
      assert keys == keys[..last] + [keys[last]];
      forall key | key in rest ensures key in keys[..last] {
        var i :| 0 <= i < |keys| && keys[i] == key;
        assert keys[..last][i] == key;
      }
      ListsIsMultiset(keys[..last], rest);
      assert s == rest + {keys[last]};
    }
  }

  predicate DeletesOneTag(params: Params) {
    forall k1, k2 :: k1 in DeleteKeys(params.Keys) && k2 in DeleteKeys(params.Keys) ==> params[k1] == params[k2]
  }

  /** No tag key is specified with two values. */
  ghost predicate OneValuePerTag(env: ParseEnv, params: Params) {
    forall k1, k2 :: k1 in AddKeys(params.Keys) && k2 in AddKeys(params.Keys) ==> !TwoValues(env, params, k1, k2)
  }

  predicate TwoValues(env: ParseEnv, params: Params, k1: Key, k2: Key)
    requires k1 in params && k2 in params
  {
    var props := PropsOf(params, params.Keys);
    var a, b := TagOf(env, params[k1], props), TagOf(env, params[k2], props);
    a.Some? && b.Some? && a.value.0 == b.value.0 && a.value.1 != b.value.1
  }

  /** With one value per key, every specification is granted, whatever the order. */
  lemma EveryTagIsSet(env: ParseEnv, params: Params, adds: seq<Key>, i: nat)
    requires Lists(adds, AddKeys(params.Keys)) && OneValuePerTag(env, params) && i < |adds|
    requires Evaluate(env, Values(params, adds), PropsOf(params, params.Keys)).Some?
    ensures var props := PropsOf(params, params.Keys);
            var md, tag := Evaluate(env, Values(params, adds), props).value, TagOf(env, params[adds[i]], props);
            tag.Some? && tag.value.0 in md && md[tag.value.0] == tag.value.1
  {
    var raws, props := Values(params, adds), PropsOf(params, params.Keys);
    EvaluateMeans(env, raws, props);
    assert raws[i] == params[adds[i]];
    var key := TagOf(env, raws[i], props).value.0;
    var m := LastSpecification(env, raws, props, key, i);
    LastSpecificationWins(env, raws, props, key, m);
    assert raws[m] == params[adds[m]] && !TwoValues(env, params, adds[i], adds[m]);
  }

  lemma TagsOfOneOrderAreInTheOther(env: ParseEnv, params: Params, adds: seq<Key>, adds': seq<Key>, key: string)
    requires Lists(adds, AddKeys(params.Keys)) && Lists(adds', AddKeys(params.Keys)) && OneValuePerTag(env, params)
    requires var props := PropsOf(params, params.Keys);
             && Evaluate(env, Values(params, adds), props).Some? && Evaluate(env, Values(params, adds'), props).Some?
             && key in Evaluate(env, Values(params, adds), props).value
    ensures var props := PropsOf(params, params.Keys);
            var md, md' := Evaluate(env, Values(params, adds), props).value, Evaluate(env, Values(params, adds'), props).value;
            key in md' && md'[key] == md[key]
  {
    var raws, props := Values(params, adds), PropsOf(params, params.Keys);
    EvaluateMeans(env, raws, props);
    var i :| 0 <= i < |raws| && TagOf(env, raws[i], props).Some? && TagOf(env, raws[i], props).value.0 == key;
    assert raws[i] == params[adds[i]];
    EveryTagIsSet(env, params, adds, i);
    var j :| 0 <= j < |adds'| && adds'[j] == adds[i];
    EveryTagIsSet(env, params, adds', j);
  }

  /** Unambiguous parameters parse to the same request in every map order. */
  lemma UnambiguousParsesEqually(
    env: ParseEnv, params: Params, adds: seq<Key>, deletes: seq<Key>, r: Request,
    adds': seq<Key>, deletes': seq<Key>, r': Request)
    requires DeletesOneTag(params) && OneValuePerTag(env, params)
    requires ParsedFrom(env, params, adds, deletes, r) && ParsedFrom(env, params, adds', deletes', r')
    ensures r == r'
  {
    ListsIsMultiset(deletes, DeleteKeys(params.Keys));
    ListsIsMultiset(deletes', DeleteKeys(params.Keys));
    assert |deletes| == |multiset(deletes)| == |multiset(deletes')| == |deletes'|;
    assert Values(params, deletes) == Values(params, deletes');
    var props := PropsOf(params, params.Keys);
    var md, md' := Evaluate(env, Values(params, adds), props).value, Evaluate(env, Values(params, adds'), props).value;
    forall key | key in md ensures key in md' && md'[key] == md[key] {
      TagsOfOneOrderAreInTheOther(env, params, adds, adds', key);
    }
    forall key | key in md' ensures key in md {
      TagsOfOneOrderAreInTheOther(env, params, adds', adds, key);
    }
    assert md == md';
  }

  function Swapped(keys: seq<Key>, i: nat, j: nat): seq<Key>
    requires i < |keys| && j < |keys|
  {
    keys[i := keys[j]][j := keys[i]]
  }

  lemma SwappedLists(keys: seq<Key>, i: nat, j: nat, s: set<Key>)
    requires i < |keys| && j < |keys| && Lists(keys, s)
    ensures Lists(Swapped(keys, i, j), s)
  {
    var swapped := Swapped(keys, i, j);
    forall key | key in s ensures key in swapped {
      var k :| 0 <= k < |keys| && keys[k] == key;
      assert swapped[if k == i then j else if k == j then i else k] == key;
    }
  }

  /** The same parameters, with two of the deletions met in the other order. */
  lemma TwoDeletionsConflict(
    env: ParseEnv, params: Params, adds: seq<Key>, deletes: seq<Key>, r: Request, i: nat, j: nat)
    requires ParsedFrom(env, params, adds, deletes, r)
    requires i < |deletes| && j < |deletes| && params[deletes[i]] != params[deletes[j]]
    ensures exists deletes', r' :: ParsedFrom(env, params, adds, deletes', r') && !Compatible(r, r')
  {
    var swapped := Swapped(deletes, i, j);
    SwappedLists(deletes, i, j, DeleteKeys(params.Keys));
    var r' := r.(tags := r.tags.(toDelete := Some(Values(params, swapped))));
    assert Values(params, swapped)[i] != Values(params, deletes)[i];
    assert ParsedFrom(env, params, adds, swapped, r');
  }

  /** Swapping the winning specification with another of its key makes that one win. */
  lemma SwapChangesWinner(env: ParseEnv, raws: seq<string>, raws': seq<string>, props: PVProps, key: string, p: nat, m: nat)
    requires Evaluate(env, raws, props).Some? && p < m < |raws| == |raws'|
    requires SpecifiesKey(env, raws[p], props, key) && SpecifiesKey(env, raws[m], props, key)
    requires forall k :: m < k < |raws| ==> !SpecifiesKey(env, raws[k], props, key)
    requires raws'[m] == raws[p] && raws'[p] == raws[m]
    requires forall k :: 0 <= k < |raws| && k != p && k != m ==> raws'[k] == raws[k]
    ensures var md, md' := Evaluate(env, raws, props), Evaluate(env, raws', props);
            && md'.Some? && key in md.value && key in md'.value
            && md.value[key] == TagOf(env, raws[m], props).value.1
            && md'.value[key] == TagOf(env, raws[p], props).value.1
  {
    EvaluateMeans(env, raws, props);
    EvaluateMeans(env, raws', props);
    LastSpecificationWins(env, raws, props, key, m);
    LastSpecificationWins(env, raws', props, key, m);
  }

  /** Of two specifications of a key, one that does not win in this order wins in another. */
  lemma OtherValueWins(env: ParseEnv, params: Params, adds: seq<Key>, i: nat, j: nat) returns (adds': seq<Key>, key: string)
    requires Lists(adds, AddKeys(params.Keys)) && i < |adds| && j < |adds| && TwoValues(env, params, adds[i], adds[j])
    requires Evaluate(env, Values(params, adds), PropsOf(params, params.Keys)).Some?
    ensures Lists(adds', AddKeys(params.Keys))
    ensures var props := PropsOf(params, params.Keys);
            var md, md' := Evaluate(env, Values(params, adds), props), Evaluate(env, Values(params, adds'), props);
            md'.Some? && key in md.value && key in md'.value && md.value[key] != md'.value[key]
  {
    var raws, props := Values(params, adds), PropsOf(params, params.Keys);
    assert raws[i] == params[adds[i]] && raws[j] == params[adds[j]];
    key := TagOf(env, raws[i], props).value.0;
    var m := LastSpecification(env, raws, props, key, i);
    var p := if TagOf(env, raws[i], props) != TagOf(env, raws[m], props) then i else j;
    adds' := Swapped(adds, p, m);
    SwappedLists(adds, p, m, AddKeys(params.Keys));
    SwapChangesWinner(env, raws, Values(params, adds'), props, key, p, m);
  }

  lemma ValidParses(env: ParseEnv, params: Params, adds: seq<Key>, deletes: seq<Key>) returns (r: Request)
    requires Valid(env, params) && Lists(adds, AddKeys(params.Keys)) && Lists(deletes, DeleteKeys(params.Keys))
    ensures ParsedFrom(env, params, adds, deletes, r)
  {
    TagsAreGoodInAnyOrder(env, params, adds);
    var user := Evaluate(env, Values(params, adds), PropsOf(params, params.Keys)).value;
    r := Request(0, DiskOf(env, params, params.Keys),
                 TagOptions(Some(user + OwnTags(env, params, params.Keys)), Some(Values(params, deletes))));
  }

  lemma ParsedIsValid(env: ParseEnv, params: Params, adds: seq<Key>, deletes: seq<Key>, r: Request)
    requires ParsedFrom(env, params, adds, deletes, r)
    ensures Valid(env, params)
  {
    TagsAreGoodInAnyOrder(env, params, adds);
  }

  /** Requests that set a tag of the user's to different values conflict. */
  lemma DifferentTagConflicts(
    env: ParseEnv, params: Params, adds: seq<Key>, deletes: seq<Key>, r: Request, adds': seq<Key>, r': Request, key: string)
    requires ParsedFrom(env, params, adds, deletes, r) && ParsedFrom(env, params, adds', deletes, r')
    requires var props := PropsOf(params, params.Keys);
             var md, md' := Evaluate(env, Values(params, adds), props).value, Evaluate(env, Values(params, adds'), props).value;
             key in md && key in md' && md[key] != md'[key]
    ensures !Compatible(r, r')
  {
    var props := PropsOf(params, params.Keys);
    OwnTagsAreReserved(env);
    TagDiffers(r, Evaluate(env, Values(params, adds), props).value, r', Evaluate(env, Values(params, adds'), props).value,
               OwnTags(env, params, params.Keys), key);
  }

  lemma TagDiffers(
    r: Request, md: map<string, string>, r': Request, md': map<string, string>, own: map<string, string>, key: string)
    requires r.tags.toAdd == Some(md + own) && r'.tags.toAdd == Some(md' + own)
    requires key !in own && key in md && key in md' && md[key] != md'[key]
    ensures !Compatible(r, r')
  {
    assert (md + own)[key] != (md' + own)[key];
    assert HasTags(r.tags) && HasTags(r'.tags);
  }

  /** The same parameters, with two specifications of a tag key met in another order. */
  lemma TwoValuesConflict(
    env: ParseEnv, params: Params, adds: seq<Key>, deletes: seq<Key>, r: Request, i: nat, j: nat)
    requires ParsedFrom(env, params, adds, deletes, r)
    requires i < |adds| && j < |adds| && TwoValues(env, params, adds[i], adds[j])
    ensures exists adds', r' :: ParsedFrom(env, params, adds', deletes, r') && !Compatible(r, r')
  {
    var adds', key := OtherValueWins(env, params, adds, i, j);
    ParsedIsValid(env, params, adds, deletes, r);
    var r' := ValidParses(env, params, adds', deletes);
    DifferentTagConflicts(env, params, adds, deletes, r, adds', r', key);
  }

  /**
   * Two requests with identical parameters do not always merge. Deletions end up in a slice in map order and
   * slices are compared in order; of two values for a tag key, the one met later wins. So a repeat is sure to
   * merge exactly when the parameters name no two different tags to delete and no two values for one tag.
   */
  lemma IdenticalParametersMergeIff(env: ParseEnv, params: Params, adds: seq<Key>, deletes: seq<Key>, r: Request)
    requires ParsedFrom(env, params, adds, deletes, r)
    ensures (forall adds', deletes', r' :: ParsedFrom(env, params, adds', deletes', r') ==> Compatible(r, r'))
            <==> DeletesOneTag(params) && OneValuePerTag(env, params)
  {
    if !DeletesOneTag(params) {
      var k1, k2 :| k1 in DeleteKeys(params.Keys) && k2 in DeleteKeys(params.Keys) && params[k1] != params[k2];
      var i :| 0 <= i < |deletes| && deletes[i] == k1;
      var j :| 0 <= j < |deletes| && deletes[j] == k2;
      TwoDeletionsConflict(env, params, adds, deletes, r, i, j);
    } else if !OneValuePerTag(env, params) {
      var k1, k2 :| k1 in AddKeys(params.Keys) && k2 in AddKeys(params.Keys) && TwoValues(env, params, k1, k2);
      var i :| 0 <= i < |adds| && adds[i] == k1;
      var j :| 0 <= j < |adds| && adds[j] == k2;
      TwoValuesConflict(env, params, adds, deletes, r, i, j);
    } else {
      forall adds', deletes', r' | ParsedFrom(env, params, adds', deletes', r') ensures Compatible(r, r') {
        UnambiguousParsesEqually(env, params, adds, deletes, r, adds', deletes', r');
      }
    }
  }

  /** Two parses of these parameters conflict. */
  ghost predicate MayConflict(env: ParseEnv, params: Params) {
    exists adds, deletes, r, adds', deletes', r' ::
      ParsedFrom(env, params, adds, deletes, r) && ParsedFrom(env, params, adds', deletes', r') && !Compatible(r, r')
  }

  lemma OneLetterIsNotReserved(env: ParseEnv, letter: char)
    requires letter != '/'
    ensures !Reserved(env, [letter])
  {
    assert |"CSIVolumeName"| > 1 && |"CSIVolumeSnapshotName"| > 1 && |"ebs.csi.aws.com/cluster-name"| > 1;
    var prefix := env.driverName + "/";
    assert prefix[|prefix| - 1] == '/';
  }

  lemma TwoKeysAreListed(k1: Key, k2: Key)
    requires k1 != k2
    ensures Lists([k1, k2], {k1, k2})
  {
    assert [k1, k2][0] == k1 && [k1, k2][1] == k2;
  }

  /** One failing input: delete the tags x and y. */
  lemma DeletionsMayConflict(env: ParseEnv)
    ensures MayConflict(env, map[DeleteTag("1") := "x", DeleteTag("2") := "y"])
  {
    var params: Params := map[DeleteTag("1") := "x", DeleteTag("2") := "y"];
    OneLetterIsNotReserved(env, 'x');
    OneLetterIsNotReserved(env, 'y');
    assert AddKeys(params.Keys) == {} && DeleteKeys(params.Keys) == {DeleteTag("1"), DeleteTag("2")};
    TwoKeysAreListed(DeleteTag("1"), DeleteTag("2"));
    var deletes := [DeleteTag("1"), DeleteTag("2")];
    var r := ValidParses(env, params, [], deletes);
    TwoDeletionsConflict(env, params, [], deletes, r, 0, 1);
  }

  lemma TwoSpecificationsMayConflict(env: ParseEnv, params: Params, k1: Key, k2: Key)
    requires k1.AddTag? && k2.AddTag? && k1 != k2 && params.Keys == {k1, k2}
    requires GoodTag(env, params, k1) && GoodTag(env, params, k2) && TwoValues(env, params, k1, k2)
    ensures MayConflict(env, params)
  {
    TwoKeysAreListed(k1, k2);
    assert AddKeys(params.Keys) == {k1, k2} && DeleteKeys(params.Keys) == {};
    var r := ValidParses(env, params, [k1, k2], []);
    TwoValuesConflict(env, params, [k1, k2], [], r, 0, 1);
  }

  /** The other: set the tag a to 1 and to 2. */
  lemma ValuesMayConflict(env: ParseEnv)
    requires forall props :: env.execTemplate("1", props) == Some("1") && env.execTemplate("2", props) == Some("2")
    ensures MayConflict(env, map[AddTag("1") := "a=1", AddTag("2") := "a=2"])
  {
    SplitsAtA("1");
    SplitsAtA("2");
    OneLetterIsNotReserved(env, 'a');
    TwoSpecificationsMayConflict(env, map[AddTag("1") := "a=1", AddTag("2") := "a=2"], AddTag("1"), AddTag("2"));
  }

  lemma SplitsAtA(value: string)
    ensures SplitAtEquals("a=" + value) == Some(("a", value))
  {
    var s := "a=" + value;
    assert s[1..][0] == '=' && s[1..][1..] == value;
    assert [s[0]] + "" == "a";
  }

  // ----- What the parser reads -----

  /** A specification splits exactly at its first equals sign. */
  lemma {:induction false} SplitsAtFirstEquals(s: string, key: string, value: string)
    ensures SplitAtEquals(s) == Some((key, value)) <==> s == key + "=" + value && '=' !in key
  {
    if s != [] && s[0] != '=' {
      if key != [] {
        SplitsAtFirstEquals(s[1..], key[1..], value);
        assert key == [key[0]] + key[1..];
        if s == key + "=" + value { assert s[1..] == key[1..] + "=" + value; }
        if s[1..] == key[1..] + "=" + value && s[0] == key[0] { assert s == key + "=" + value; }
      } else {
        assert (key + "=" + value)[0] == '=';
      }
    } else if s != [] {
      assert s[0] == '=' && s == "=" + s[1..];
      if s == key + "=" + value && key != [] { assert key[0] == s[0] && key[0] in key; }
      assert key == [] ==> (key + "=" + value)[1..] == value;
    }
  }

  /** A key is reserved exactly if it is one of three names, or begins with "kubernetes.io" or the driver's name and a slash. */
  lemma ReservedIff(env: ParseEnv, key: string)
    ensures Reserved(env, key) <==>
              || key == "CSIVolumeName" || key == "CSIVolumeSnapshotName" || key == "ebs.csi.aws.com/cluster-name"
              || (exists rest :: key == "kubernetes.io" + rest)
              || (exists rest :: key == env.driverName + "/" + rest)
  {
    if "kubernetes.io" <= key { assert key == "kubernetes.io" + key[|"kubernetes.io"|..]; }
    var prefix := env.driverName + "/";
    if prefix <= key { assert key == prefix + key[|prefix|..]; }
  }

  /** Parameters that ask for these options and properties, numbers being written by `itoa`. */
  function ParametersFor(disk: DiskOptions, props: PVProps, itoa: Int32 -> string): Params {
    map[Iops := itoa(disk.iops), Throughput := itoa(disk.throughput), Type := disk.volumeType,
        Ratio := itoa(disk.iopsPerGB), AllowIncrease := if disk.allowIopsIncreaseOnResize then "true" else "false",
        PvcName := props.pvcName, PvcNamespace := props.pvcNamespace, PvName := props.pvName]
  }

  /** The number comes back when it is read. */
  ghost predicate ReadsBack(env: ParseEnv, itoa: Int32 -> string) {
    forall n: Int32 :: env.parseInt(itoa(n)) == Some(n)
  }

  lemma ParametersAreValid(env: ParseEnv, disk: DiskOptions, props: PVProps, itoa: Int32 -> string)
    requires ReadsBack(env, itoa)
    ensures var params := ParametersFor(disk, props, itoa);
            && Valid(env, params)
            && AddKeys(params.Keys) == {} && DeleteKeys(params.Keys) == {}
  {
    var params := ParametersFor(disk, props, itoa);
    assert forall key :: key in params ==> IsPlain(key);
    assert env.parseInt(params[Iops]).Some? && env.parseInt(params[Throughput]).Some? && env.parseInt(params[Ratio]).Some?;
  }

  lemma ParametersTellAll(env: ParseEnv, disk: DiskOptions, props: PVProps, itoa: Int32 -> string)
    requires ReadsBack(env, itoa)
    ensures var params := ParametersFor(disk, props, itoa);
            PropsOf(params, params.Keys) == props && DiskOf(env, params, params.Keys) == disk
  {
    var params := ParametersFor(disk, props, itoa);
    assert Number(env, params, params.Keys, Iops) == disk.iops;
    assert Number(env, params, params.Keys, Throughput) == disk.throughput;
    assert Number(env, params, params.Keys, Ratio) == disk.iopsPerGB;
    assert Text(params, params.Keys, AllowIncrease) == (if disk.allowIopsIncreaseOnResize then "true" else "false");
  }

  lemma ParametersOwnTags(env: ParseEnv, disk: DiskOptions, props: PVProps, itoa: Int32 -> string)
    ensures var params := ParametersFor(disk, props, itoa);
            OwnTags(env, params, params.Keys) == OwnTagsFor(env, disk, itoa)
  {
    OwnTagsAreReserved(env);
  }

  function OwnTagsFor(env: ParseEnv, disk: DiskOptions, itoa: Int32 -> string): map<string, string> {
    map[RatioTag(env) := itoa(disk.iopsPerGB),
        AllowIncreaseTag(env) := if disk.allowIopsIncreaseOnResize then "true" else "false"]
  }

  lemma ListsNothing(keys: seq<Key>, none: set<Key>)
    requires Lists(keys, none) && none == {}
    ensures keys == []
  {
    ListsIsMultiset(keys, none);
    assert |keys| == |multiset(keys)|;
  }

  /**
   * Parameters written for some options parse to exactly these options, with the tags of the ratio and of the
   * increase flag set to what was written; and templates see the properties that were written.
   */
  lemma ParametersRoundTrip(
    env: ParseEnv, disk: DiskOptions, props: PVProps, itoa: Int32 -> string, adds: seq<Key>, deletes: seq<Key>, r: Request)
    requires ReadsBack(env, itoa) && ParsedFrom(env, ParametersFor(disk, props, itoa), adds, deletes, r)
    ensures r == Request(0, disk, TagOptions(Some(OwnTagsFor(env, disk, itoa)), Some([])))
  {
    var params := ParametersFor(disk, props, itoa);
    ParametersAreValid(env, disk, props, itoa);
    ParametersTellAll(env, disk, props, itoa);
    ParametersOwnTags(env, disk, props, itoa);
    ListsNothing(adds, AddKeys(params.Keys));
    ListsNothing(deletes, DeleteKeys(params.Keys));
    assert map[] + OwnTags(env, params, params.Keys) == OwnTags(env, params, params.Keys);
  }

  /** The deprecated key for the type counts only where the preferred one is missing. */
  lemma DeprecatedTypeCounts(env: ParseEnv, params: Params, adds: seq<Key>, deletes: seq<Key>, r: Request)
    requires ParsedFrom(env, params, adds, deletes, r)
    ensures Type in params ==> r.disk.volumeType == params[Type]
    ensures Type !in params && DeprecatedType in params ==> r.disk.volumeType == params[DeprecatedType]
    ensures Type !in params && DeprecatedType !in params ==> r.disk.volumeType == ""
    ensures Iops !in params ==> r.disk.iops == 0
    ensures Throughput !in params ==> r.disk.throughput == 0
    ensures Ratio !in params ==> r.disk.iopsPerGB == 0
    ensures AllowIncrease !in params ==> !r.disk.allowIopsIncreaseOnResize
  {
  }
}
