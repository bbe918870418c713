/**
 * Expanding and modifying volumes end to end: the RPC, the coalescer, the execution of the merged
 * request, and EC2. pkg/driver/controller.go and pkg/driver/controller_modify_volume.go.
 */
module ModifyPipeline {

  import opened Base
  import opened Sizes
  import opened Coalescer
  import opened ModifyRequest
  import opened VolumeModification
  import opened ModificationOutcome

  const INVALID_ARGUMENT := "InvalidArgument"
  const INTERNAL := "Internal"
  const NOT_FOUND := "NotFound"
  const RESOURCE_EXHAUSTED := "ResourceExhausted"

  predicate Deletes(tags: TagOptions) {
    tags.toDelete.Some? && |tags.toDelete.value| > 0
  }

  predicate Adds(tags: TagOptions) {
    tags.toAdd.Some? && |tags.toAdd.value| > 0
  }

  function CallDeleteTags(s: Session, keys: seq<string>): (bool, Session) {
    (s.world.refusesDeleteTags, s.(log := s.log + [DeleteTags(keys, s.world.refusesDeleteTags)]))
  }

  function CallCreateTags(s: Session, tags: map<string, string>): (bool, Session) {
    (s.world.refusesCreateTags, s.(log := s.log + [CreateTags(tags, s.world.refusesCreateTags)]))
  }

  /** Deletions come first, and EC2's refusals are passed on as they are. */
  function ModifyTags(s: Session, tags: TagOptions): (Option<CloudError>, Session) {
    var (refused, t) := if Deletes(tags) then CallDeleteTags(s, tags.toDelete.value) else (false, s);
    if refused then (Some(ErrOther), t)
    else
      var (refused', u) := if Adds(tags) then CallCreateTags(t, tags.toAdd.value) else (false, t);
      (if refused' then Some(ErrOther) else None, u)
  }

  function TagsStatusCode(e: CloudError): string {
    if e.ErrInvalidArgument? then INVALID_ARGUMENT else INTERNAL
  }

  /** Tags first, and only if there are any. */
  function ExecuteTags(s: Session, tags: TagOptions): (Option<string>, Session) {
    if !HasTags(tags) then (None, s)
    else
      var (refused, t) := ModifyTags(s, tags);
      (if refused.Some? then Some(TagsStatusCode(refused.value)) else None, t)
  }

  /** An invalid argument is reported as internal once tags have been changed. */
  function StatusCode(e: CloudError, tags: TagOptions): string {
    match e
    case ErrInvalidArgument => if HasTags(tags) then INTERNAL else INVALID_ARGUMENT
    case ErrNotFound => NOT_FOUND
    case ErrLimitExceeded => RESOURCE_EXHAUSTED
    case ErrOther => INTERNAL
  }

  predicate ChangesDisk(r: Request) {
    r.disk.iops != 0 || r.disk.throughput != 0 || r.disk.volumeType != "" || r.newSize != 0 || r.disk.iopsPerGB != 0
  }

  /** It asks for a size, IOPS, a throughput or a type, which the merge keeps, and not only for a ratio. */
  predicate SetsValue(r: Request) {
    r.newSize != 0 || r.disk.iops != 0 || r.disk.throughput != 0 || r.disk.volumeType != ""
  }

  function ExecuteModify(env: Env, s: Session, r: Request): (Result<Int32, string>, Session) {
    var (refused, t) := ExecuteTags(s, r.tags);
    if refused.Some? then (Err(refused.value), t)
    else if ChangesDisk(r) then
      var out := ResizeOrModify(env, t, r.newSize, r.disk);
      (if out.result.Ok? then Ok(out.result.value) else Err(StatusCode(out.result.error, r.tags)), out.session)
    else (Ok(0), t)
  }

  method ModifyVolumeTags(ec2: Client, tags: TagOptions) returns (err: Option<CloudError>)
    modifies ec2
    ensures (err, ec2.session) == ModifyTags(old(ec2.session), tags)
  {
    if Deletes(tags) {
      var step := CallDeleteTags(ec2.session, tags.toDelete.value);
      ec2.session := step.1;
      if step.0 { return Some(ErrOther); }
    }
    if Adds(tags) {
      var step := CallCreateTags(ec2.session, tags.toAdd.value);
      ec2.session := step.1;
      if step.0 { return Some(ErrOther); }
    }
    return None;
  }

  method ExecuteModifyVolumeRequest(env: Env, ec2: Client, r: Request) returns (result: Result<Int32, string>)
    modifies ec2
    ensures (result, ec2.session) == ExecuteModify(env, old(ec2.session), r)
  {
    if HasTags(r.tags) {
      var refused := ModifyVolumeTags(ec2, r.tags);
      if refused.Some? { return Err(TagsStatusCode(refused.value)); }
    }
    if !ChangesDisk(r) { return Ok(0); }
    var options := new OptionsRef(r.disk);
    var resized := ResizeOrModifyDisk(env, ec2, r.newSize, options);
    result := if resized.Ok? then Ok(resized.value) else Err(StatusCode(resized.error, r.tags));
  }

  function ModifyConfig(env: Env): Config<Request, World, Int32> {
    Config(ZERO, Merge,
           (key: string, r: Request, world: World) => ExecuteModify(env, Session(world, []), r).0)
  }

  // ----- What a successful execution has done -----

  /** The calls that an execution with these tags makes before it turns to the disk. */
  function TagCalls(tags: TagOptions): seq<Call> {
    (if Deletes(tags) then [DeleteTags(tags.toDelete.value, false)] else [])
    + (if Adds(tags) then [CreateTags(tags.toAdd.value, false)] else [])
  }

  /**
   * The calls made beyond `from` show that EC2 accepted all of `r`'s tags and, if the disk was to be changed,
   * last reported a volume with all of `r`'s values, `merged` being the request that was executed. A ratio of
   * IOPS to size is not one of these values; module ModifyRatio says what becomes of it.
   */
  ghost predicate Fulfilled(env: Env, from: seq<Call>, log: seq<Call>, merged: Request, r: Request) {
    && from + TagCalls(merged.tags) <= log
    && (HasTags(r.tags) ==> TagCalls(merged.tags) == TagCalls(r.tags))
    && (SetsValue(r) ==> ChangesDisk(merged))
    && (ChangesDisk(merged) ==> EndsShowing(env, log, |from + TagCalls(merged.tags)|, merged, r))
  }

  /** The calls from `n` on begin with the volume and its modification, and the last one is a volume that shows `r`. */
  ghost predicate EndsShowing(env: Env, log: seq<Call>, n: nat, merged: Request, r: Request) {
    && |log| > n + 1
    && log[n].ReadVolume? && log[n].volume.Ok?
    && log[n + 1].ReadModification? && log[n + 1].modification.Ok?
    && log[|log| - 1].ReadVolume? && log[|log| - 1].volume.Ok?
    && Shows(env, log[|log| - 1].volume.value, log[n].volume.value,
             log[n + 1].modification.value == Some(MODIFYING), merged, r)
  }

  /**
   * `volume` has the values asked for. On the detour its IOPS are those of the request; otherwise they are
   * the capped ones, whether the merged request or the ratio in `first`'s tags asked for them.
   */
  predicate Shows(env: Env, volume: Volume, first: Volume, detour: bool, merged: Request, r: Request) {
    && RoundUpGiB(merged.newSize).Ok?
    && (r.newSize != 0 ==> RoundUpGiB(r.newSize).Ok? && volume.size >= RoundUpGiB(r.newSize).value)
    && (r.disk.throughput != 0 ==> volume.throughput == Some(r.disk.throughput))
    && (r.disk.volumeType != "" ==> env.equalFold(volume.volumeType, r.disk.volumeType))
    && (detour ==> r.disk.iops != 0 ==> volume.iops == Some(r.disk.iops))
    && (!detour ==>
          && IncreaseFromTags(env, first.tags).Ok?
          && var gib := RoundUpGiB(merged.newSize).value;
             var wanted := WantedIops(env, first, merged.newSize, gib, merged.disk);
             && (r.disk.iops != 0 ==> wanted == r.disk.iops)
             && (wanted != 0 ==>
                   volume.iops == Some(CappedFor(env, first, merged.newSize, gib, merged.disk, wanted))))
  }

  lemma GoodReadShows(
    env: Env, s: Session, first: Volume, detour: bool, sizeGiB: Int32, desiredGiB: Int32, checked: DiskOptions,
    merged: Request, r: Request)
    requires EndsWithGoodRead(env, s, sizeGiB, desiredGiB, checked)
    requires RoundUpGiB(merged.newSize) == Ok(desiredGiB)
    requires CheckedAs(env, first, detour, merged.newSize, desiredGiB, checked, merged.disk)
    requires Grants(merged, r)
    ensures Shows(env, s.log[|s.log| - 1].volume.value, first, detour, merged, r)
  {
  }

  lemma ResizeFulfils(env: Env, s: Session, merged: Request, r: Request)
    requires ResizeOrModify(env, s, merged.newSize, merged.disk).result.Ok? && Grants(merged, r)
    ensures var out := ResizeOrModify(env, s, merged.newSize, merged.disk);
            && s.log <= out.session.log
            && EndsShowing(env, out.session.log, |s.log|, merged, r)
            && (r.newSize != 0 ==> out.result.value >= RoundUpGiB(r.newSize).value)
  {
    var out := ResizeOrModify(env, s, merged.newSize, merged.disk);
    SuccessIsVerified(env, s, merged.newSize, merged.disk);
    OptionsChangeOnlyByCapping(env, s, merged.newSize, merged.disk);
    FirstReadsAreLogged(env, s, merged.newSize, merged.disk);
    var first, latest := s.world.volumes[0], s.world.modifications[0];
    GoodReadShows(env, out.session, first.value, latest == Ok(Some(MODIFYING)), out.result.value,
                  RoundUpGiB(merged.newSize).value, out.options, merged, r);
    var start := s.log + [ReadVolume(first), ReadModification(latest)];
    assert out.session.log[|s.log|] == start[|s.log|] && out.session.log[|s.log| + 1] == start[|s.log| + 1];
    SuccessReadsModification(env, s, merged.newSize, merged.disk);
  }

  lemma SuccessReadsModification(env: Env, s: Session, newSizeBytes: Int64, options: DiskOptions)
    requires ResizeOrModify(env, s, newSizeBytes, options).result.Ok?
    ensures s.world.modifications != [] && s.world.modifications[0].Ok?
  {
  }

  /** Tags that were applied without an error account for exactly these calls. */
  lemma TagsAreCalled(s: Session, tags: TagOptions)
    requires ExecuteTags(s, tags).0.None?
    ensures ExecuteTags(s, tags).1.log == s.log + TagCalls(tags)
  {
  }

  /** A successful execution fulfils the merged request, and every request the merged one grants. */
  lemma ExecutionFulfils(env: Env, s: Session, merged: Request, r: Request)
    requires ExecuteModify(env, s, merged).0.Ok? && Grants(merged, r)
    ensures var (result, t) := ExecuteModify(env, s, merged);
            && Fulfilled(env, s.log, t.log, merged, r)
            && (r.newSize != 0 ==> result.value >= RoundUpGiB(r.newSize).value)
  {
    TagsAreCalled(s, merged.tags);
    var t := ExecuteTags(s, merged.tags).1;
    if ChangesDisk(merged) { ResizeFulfils(env, t, merged, r); }
  }

  /**
   * A failure the caller is told is infeasible has changed nothing: no tag was touched, and EC2 refused every
   * ModifyVolume it was asked for.
   */
  lemma InvalidArgumentChangedNothing(env: Env, s: Session, r: Request)
    requires ExecuteModify(env, s, r).0 == Err(INVALID_ARGUMENT)
    ensures NothingChanged(s.log, ExecuteModify(env, s, r).1.log) && !HasTags(r.tags)
  {
    var (refused, t) := ExecuteTags(s, r.tags);
    if refused.None? && ChangesDisk(r) {
      InvalidMeansRefused(env, t, r.newSize, r.disk);
    }
  }

  predicate ChangesTags(call: Call) {
    (call.DeleteTags? || call.CreateTags?) && !call.refused
  }

  /**
   * A failed tag change has nevertheless changed tags exactly when there were tags to delete and EC2 refused
   * only the ones to add; the caller is then told Internal, not that its request is infeasible.
   */
  lemma FailedTagsAreHalfAppliedIff(s: Session, tags: TagOptions)
    requires ModifyTags(s, tags).0.Some?
    ensures var log := ModifyTags(s, tags).1.log;
            (exists i :: |s.log| <= i < |log| && ChangesTags(log[i])) <==> Deletes(tags) && !s.world.refusesDeleteTags
    ensures ExecuteTags(s, tags).0 == Some(INTERNAL)
  {
    if Deletes(tags) && !s.world.refusesDeleteTags {
      assert ChangesTags(ModifyTags(s, tags).1.log[|s.log|]);
    }
  }

  // ----- Exactly what an execution answers -----

  /** EC2 accepts the tag calls that are made. */
  predicate TagsAccepted(world: World, tags: TagOptions) {
    && (tags.toDelete.Some? && tags.toDelete.value != [] ==> !world.refusesDeleteTags)
    && (tags.toAdd.Some? && tags.toAdd.value != map[] ==> !world.refusesCreateTags)
  }

  lemma TagsResult(s: Session, tags: TagOptions)
    ensures ExecuteTags(s, tags).0 == if TagsAccepted(s.world, tags) then None else Some("Internal")
    ensures ExecuteTags(s, tags).1.world == s.world
  {
  }

  /** Success, in terms of EC2's answers: the tags are accepted, and the disk, if it is to be changed, shows it. */
  lemma ExecutionSucceedsIff(env: Env, s: Session, r: Request, sizeGiB: Int32)
    ensures ExecuteModify(env, s, r).0 == Ok(sizeGiB) <==>
              && TagsAccepted(s.world, r.tags)
              && if SetsValue(r) || r.disk.iopsPerGB != 0 then
                   && ReachesLastRead(env, s.world, r.newSize, r.disk)
                   && LastReadShows(env, s.world, r.newSize, r.disk, sizeGiB)
                 else sizeGiB == 0
  {
    TagsResult(s, r.tags);
    SucceedsIff(env, ExecuteTags(s, r.tags).1, r.newSize, r.disk, sizeGiB);
  }

  /** The three codes other than Internal, in terms of EC2's answers. An infeasible request has no tags. */
  lemma ExecutionFailsIff(env: Env, s: Session, r: Request)
    requires SetsValue(r) || r.disk.iopsPerGB != 0
    ensures var result := ExecuteModify(env, s, r).0;
            && (result == Err("NotFound") <==>
                  TagsAccepted(s.world, r.tags) && VolumeIsMissing(env, s.world, r.newSize, r.disk))
            && (result == Err("ResourceExhausted") <==>
                  TagsAccepted(s.world, r.tags) && LimitIsExceeded(env, s.world, r.newSize, r.disk))
            && (result == Err("InvalidArgument") <==>
                  !HasTags(r.tags) && ArgumentIsInvalid(env, s.world, r.newSize, r.disk))
  {
    TagsResult(s, r.tags);
    var t := ExecuteTags(s, r.tags).1;
    NotFoundIff(env, t, r.newSize, r.disk);
    LimitExceededIff(env, t, r.newSize, r.disk);
    InvalidArgumentIff(env, t, r.newSize, r.disk);
  }

  // ----- What a successful caller may conclude -----

  /** With these EC2 answers, executing `merged` gives `result`, and its calls fulfil `own`, size included. */
  ghost predicate CarriedOut(env: Env, world: World, merged: Request, result: Result<Int32, string>, own: Request) {
    var (r, session) := ExecuteModify(env, Session(world, []), merged);
    && r == result && r.Ok?
    && Grants(merged, own)
    && Fulfilled(env, [], session.log, merged, own)
    && (own.newSize != 0 ==> r.value >= RoundUpGiB(own.newSize).value)
  }

  /**
   * In every run of the coalescer, however its callers interleave and whatever EC2 answers: a caller that
   * is told its request succeeded had it carried out by one execution, of its own volume. That execution
   * finished once in the run, at `k`, and with the answers EC2 gave then its calls fulfil the caller's request.
   */
  lemma SuccessfulCallerIsFulfilled(env: Env, es: seq<Event<Request, World>>, d: nat) returns (k: nat)
    requires Run(ModifyConfig(env), es).Some? && d < |Run(ModifyConfig(env), es).value.deliveries|
    requires Run(ModifyConfig(env), es).value.deliveries[d].result.Ok?
    ensures var s := Run(ModifyConfig(env), es).value;
            var got := s.deliveries[d];
            && got.channel in s.arrivals
            && got.source.FromExecution? && got.source.index < |s.executions|
            && k < |es| && es[k].Finish? && es[k].index == got.source.index
            && var x := s.executions[got.source.index];
               && x.key == s.arrivals[got.channel].key
               && CarriedOut(env, es[k].world, x.input, got.result, s.arrivals[got.channel].input)
  {
    var c := ModifyConfig(env);
    var s := Run(c, es).value;
    var got := s.deliveries[d];
    SuccessComesFromSharedExecution(c, es, d);
    var x := s.executions[got.source.index];
    var own := x.callers[got.source.slot].input;
    MergeMeetsSpec();
    FoldGrantsExactly(c.merge, Inputs(x.callers));
    assert Grants(x.input, Inputs(x.callers)[got.source.slot]);
    k := OutcomesAreExecuted(c, es, got.source.index);
    ExecutionFulfils(env, Session(es[k].world, []), x.input, own);
  }

  // ----- ControllerExpandVolume -----

  datatype CapacityRange = CapacityRange(requiredBytes: Int64, limitBytes: Int64)

  datatype ExpandRequest = ExpandRequest(volumeId: string, nodeLocal: bool, range: Option<CapacityRange>)

  /** What the RPC hands to the coalescer, or the error it returns before that. */
  function ExpandInput(req: ExpandRequest): Result<Request, string> {
    if req.volumeId == "" || req.nodeLocal || req.range.None? then Err(INVALID_ARGUMENT)
    else
      var newSize := RoundUpBytes(req.range.value.requiredBytes);
      var limit := req.range.value.limitBytes;
      if limit > 0 && limit < newSize then Err(INVALID_ARGUMENT)
      else Ok(ZERO.(newSize := newSize))
  }

  /**
   * The RPC's own checks: a request with a volume ID is passed on exactly when some whole number of GiB covers the
   * required bytes and stays within the limit, if there is one.
   */
  lemma ExpandIsPassedOnIff(req: ExpandRequest)
    requires req.range.Some? ==> 0 <= req.range.value.requiredBytes <= MAX_ROUNDABLE
    ensures ExpandInput(req).Ok? <==>
              && req.volumeId != "" && !req.nodeLocal && req.range.Some?
              && exists gib: nat :: FitsRange(req.range.value, gib)
  {
    if req.range.Some? {
      var range := req.range.value;
      RoundUpToGiBsIsCeiling(range.requiredBytes);
      var least := RoundUpToGiBs(range.requiredBytes);
      RoundUpIsLeastCover(range.requiredBytes, least);
      assert FitsRange(range, least) <==> !(range.limitBytes > 0 && range.limitBytes < RoundUpBytes(range.requiredBytes));
      if gib: nat :| FitsRange(range, gib) {
        RoundUpIsLeastCover(range.requiredBytes, gib);
        FewerFitsToo(range, least, gib);
      }
    }
  }

  lemma FewerFitsToo(range: CapacityRange, least: nat, gib: nat)
    requires least <= gib && range.requiredBytes <= least * GIB && FitsRange(range, gib)
    ensures FitsRange(range, least)
  {
    assert least * GIB <= gib * GIB;
  }

  /** What is passed on asks for the least such number, and for nothing else. */
  lemma ExpandAsksForLeast(req: ExpandRequest, gib: nat)
    requires ExpandInput(req).Ok? && 0 <= req.range.value.requiredBytes <= MAX_ROUNDABLE && FitsRange(req.range.value, gib)
    ensures ExpandInput(req).value == ZERO.(newSize := ExpandInput(req).value.newSize)
    ensures req.range.value.requiredBytes <= ExpandInput(req).value.newSize <= gib * GIB
    ensures ExpandInput(req).value.newSize % GIB == 0
  {
    RoundUpIsLeastCover(req.range.value.requiredBytes, gib);
    RoundUpBytesCovers(req.range.value.requiredBytes);
    assert RoundUpToGiBs(req.range.value.requiredBytes) * GIB <= gib * GIB;
  }

  predicate FitsRange(range: CapacityRange, gib: nat) {
    range.requiredBytes <= gib * GIB && (range.limitBytes > 0 ==> gib * GIB <= range.limitBytes)
  }

  /** CapacityBytes of the response. */
  function ExpandResponse(result: Result<Int32, string>): Result<Int64, string> {
    if result.Ok? then Ok(GiBToBytes(result.value)) else Err(INTERNAL)
  }

  /** In run `es`, delivery `d` answers a call that passed the RPC's own checks, with success. */
  ghost predicate ExpandSucceeds(env: Env, es: seq<Event<Request, World>>, d: nat, req: ExpandRequest) {
    && ExpandInput(req).Ok?
    && Run(ModifyConfig(env), es).Some?
    && var s := Run(ModifyConfig(env), es).value;
       && d < |s.deliveries|
       && s.deliveries[d].result.Ok?
       && s.deliveries[d].channel in s.arrivals
       && s.arrivals[s.deliveries[d].channel] == Arrival(req.volumeId, ExpandInput(req).value)
  }

  /** Every successful answer to a request for this many bytes reports at least that capacity. */
  ghost predicate ExpandIsSafe(env: Env, requiredBytes: Int64) {
    forall es, d: nat, req | ExpandSucceeds(env, es, d, req) && req.range.value.requiredBytes == requiredBytes ::
      ExpandResponse(Run(ModifyConfig(env), es).value.deliveries[d].result).value >= requiredBytes
  }

  lemma SuccessIsNonNegative(env: Env, s: Session, r: Request)
    requires ExecuteModify(env, s, r).0.Ok?
    ensures ExecuteModify(env, s, r).0.value >= 0
  {
    var t := ExecuteTags(s, r.tags).1;
    if ChangesDisk(r) { SuccessIsVerified(env, t, r.newSize, r.disk); }
  }

  /** Success returns a capacity of at least the required bytes, coalesced with any other requests. */
  lemma ExpandReturnsEnough(env: Env, es: seq<Event<Request, World>>, d: nat, req: ExpandRequest)
    requires ExpandSucceeds(env, es, d, req) && req.range.value.requiredBytes <= MAX_ROUNDABLE
    ensures ExpandResponse(Run(ModifyConfig(env), es).value.deliveries[d].result).value
         >= req.range.value.requiredBytes
  {
    var required := req.range.value.requiredBytes;
    var got := Run(ModifyConfig(env), es).value.deliveries[d];
    var k := SuccessfulCallerIsFulfilled(env, es, d);
    var own := ExpandInput(req).value;
    var merged := Run(ModifyConfig(env), es).value.executions[got.source.index].input;
    var world := es[k].world;
    SuccessIsNonNegative(env, Session(world, []), merged);
    if own.newSize == 0 {
      RoundUpBytesCovers(required);
    } else {
      RequestedGiBCovers(required, got.result.value);
    }
  }

  /** The capacity reported for a request of some size is that of the volume as EC2 last showed it in the run. */
  lemma ExpandReportsVolume(env: Env, es: seq<Event<Request, World>>, d: nat, req: ExpandRequest) returns (k: nat)
    requires ExpandSucceeds(env, es, d, req) && ExpandInput(req).value.newSize != 0
    ensures k < |es| && es[k].Finish? && |es[k].world.volumes| >= 2 && es[k].world.volumes[1].Ok?
    ensures ExpandResponse(Run(ModifyConfig(env), es).value.deliveries[d].result)
         == Ok(es[k].world.volumes[1].value.size * 0x4000_0000)
  {
    k := SuccessfulCallerIsFulfilled(env, es, d);
    var s := Run(ModifyConfig(env), es).value;
    var got := s.deliveries[d];
    ExecutionSucceedsIff(env, Session(es[k].world, []), s.executions[got.source.index].input, got.result.value);
  }

  /** EC2 answers that describe an idle volume of two GiB. */
  const SMALL_VOLUME := Volume(2, None, "", None, [])
  const SMALL_WORLD := World([Ok(SMALL_VOLUME), Ok(SMALL_VOLUME)], [Ok(None), Ok(None)], Err(OtherRefusal), false, false)

  lemma OverflowExecutes(env: Env, input: Request)
    requires input == ZERO.(newSize := input.newSize) && input.newSize != 0
    requires RoundUpGiB(input.newSize) == Ok(1) || RoundUpGiB(input.newSize) == Ok(2)
    ensures ExecuteModify(env, Session(SMALL_WORLD, []), input).0 == Ok(2)
  {
    var s1 := GetVolume(Session(SMALL_WORLD, [])).1;
    var s2 := GetModification(s1).1;
    assert GetModification(s2).0 == Ok(None);
    var s3 := WaitForModification(s2, MODIFICATION_POLLS).1;
    assert s3.world.volumes == [Ok(SMALL_VOLUME)];
    assert IncreaseFromTags(env, []) == Ok((false, 0));
  }

  /** Alone in its batch, a request beyond the rounding bound succeeds on a volume of two GiB. */
  lemma OverflowRunSucceeds(env: Env, req: ExpandRequest)
    requires ExpandInput(req).Ok? && req.range.value.requiredBytes > MAX_ROUNDABLE
    ensures var es := LoneCall(req.volumeId, ExpandInput(req).value, SMALL_WORLD);
            && ExpandSucceeds(env, es, 0, req)
            && Run(ModifyConfig(env), es).value.deliveries[0].result == Ok(2)
  {
    RequestedGiBCollapses(req.range.value.requiredBytes);
    LoneCallIsExecuted(ModifyConfig(env), req.volumeId, ExpandInput(req).value, SMALL_WORLD);
    OverflowExecutes(env, ExpandInput(req).value);
  }

  /**
   * The guarantee of section ControllerExpandVolume of the CSI specification holds exactly up to the bound
   * at which rounding leaves int64. Beyond it the size wraps, and two GiB pass for eight EiB.
   */
  lemma ExpandIsSafeIffRoundable(env: Env, requiredBytes: Int64)
    ensures ExpandIsSafe(env, requiredBytes) <==> requiredBytes <= MAX_ROUNDABLE
  {
    if requiredBytes <= MAX_ROUNDABLE {
      forall es, d: nat, req | ExpandSucceeds(env, es, d, req) && req.range.value.requiredBytes == requiredBytes
        ensures ExpandResponse(Run(ModifyConfig(env), es).value.deliveries[d].result).value >= requiredBytes
      {
        ExpandReturnsEnough(env, es, d, req);
      }
    } else {
      var req := ExpandRequest("vol-1", false, Some(CapacityRange(requiredBytes, 0)));
      OverflowRunSucceeds(env, req);
      var es := LoneCall(req.volumeId, ExpandInput(req).value, SMALL_WORLD);
      assert ExpandSucceeds(env, es, 0, req);
      assert ExpandResponse(Run(ModifyConfig(env), es).value.deliveries[0].result).value == 2 * GIB;
    }
  }
}
