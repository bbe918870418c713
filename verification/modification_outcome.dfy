/**
 * What ResizeOrModifyDisk of pkg/cloud/cloud.go answers, in terms of EC2's answers alone: exactly when it
 * succeeds and exactly when it fails with each of its errors, on every path and in every world.
 */
module ModificationOutcome {

  import opened Base
  import opened Sizes
  import opened ModifyRequest
  import opened VolumeModification

  /** The volume is at least this large and shows these IOPS, type and throughput, as far as they are set. */
  predicate ShowsAll(env: Env, volume: Volume, sizeGiB: Int32, iops: Int32, volumeType: string, throughput: Int32) {
    && volume.size >= sizeGiB
    && (iops == 0 || volume.iops == Some(iops))
    && (volumeType == "" || env.equalFold(volume.volumeType, volumeType))
    && (throughput == 0 || volume.throughput == Some(throughput))
  }

  /** An answer that ends the polling with success: never modified, completed or optimizing. */
  predicate SaysDone(answer: Result<Option<string>, ReadError>) {
    answer.Ok? && (answer.value.None? || answer.value.value == "completed" || answer.value.value == "optimizing")
  }

  /** One of ten polls from this answer on says so, and every one before it could be read. */
  ghost predicate DoneInTime(answers: seq<Result<Option<string>, ReadError>>, start: nat) {
    exists k :: start <= k < start + 10 && DoneAt(answers, start, k)
  }

  ghost predicate DoneAt(answers: seq<Result<Option<string>, ReadError>>, start: nat, k: nat) {
    && start <= k < |answers| && SaysDone(answers[k])
    && forall j :: start <= j < k ==> answers[j].Ok?
  }

  /** The first answers let the operation get past its checks to the decision whether to modify the volume. */
  predicate ReachesDecision(env: Env, world: World, newSizeBytes: Int64, options: DiskOptions) {
    && RoundUpGiB(newSizeBytes).Ok?
    && world.volumes != [] && world.volumes[0].Ok?
    && world.modifications != [] && world.modifications[0].Ok? && world.modifications[0].value != Some("modifying")
    && (options.iops <= 0 || options.iopsPerGB <= 0)
    && IncreaseFromTags(env, world.volumes[0].value.tags).Ok?
  }

  /** The volume, as it is read at this position, shows what the decision wants. */
  predicate ShowsWanted(env: Env, world: World, newSizeBytes: Int64, options: DiskOptions, position: nat)
    requires ReachesDecision(env, world, newSizeBytes, options)
    requires position < |world.volumes| && world.volumes[position].Ok?
  {
    var first, gib := world.volumes[0].value, RoundUpGiB(newSizeBytes).value;
    var (allow, ratio) := IncreaseFromTags(env, first.tags).value;
    ShowsAll(env, world.volumes[position].value, gib,
             IopsToShow(env, first, newSizeBytes, gib, options, allow, ratio), options.volumeType, options.throughput)
  }

  /** A modification is called for, and it may start: the second answer is not that the volume is optimizing. */
  predicate ReachesModify(env: Env, world: World, newSizeBytes: Int64, options: DiskOptions) {
    && ReachesDecision(env, world, newSizeBytes, options)
    && !ShowsWanted(env, world, newSizeBytes, options, 0)
    && |world.modifications| >= 2 && world.modifications[1].Ok? && world.modifications[1].value != Some("optimizing")
  }

  /** The operation gets as far as its last read of the volume. */
  ghost predicate ReachesLastRead(env: Env, world: World, newSizeBytes: Int64, options: DiskOptions) {
    && RoundUpGiB(newSizeBytes).Ok?
    && world.volumes != [] && world.volumes[0].Ok? && world.modifications != []
    && if world.modifications[0] == Ok(Some("modifying")) then DoneInTime(world.modifications, 1)
       else if ReachesDecision(env, world, newSizeBytes, options) && ShowsWanted(env, world, newSizeBytes, options, 0) then
         DoneInTime(world.modifications, 1)
       else
         && ReachesModify(env, world, newSizeBytes, options)
         && world.modifyAnswer.Ok?
         && (SaysDone(Ok(Some(world.modifyAnswer.value))) || DoneInTime(world.modifications, 2))
  }

  /** The last read shows a volume of this size with everything that was asked for. */
  ghost predicate LastReadShows(env: Env, world: World, newSizeBytes: Int64, options: DiskOptions, sizeGiB: Int32)
    requires ReachesLastRead(env, world, newSizeBytes, options)
  {
    && |world.volumes| >= 2 && world.volumes[1].Ok? && world.volumes[1].value.size == sizeGiB
    && if world.modifications[0] == Ok(Some("modifying")) then
         ShowsAll(env, world.volumes[1].value, RoundUpGiB(newSizeBytes).value, options.iops, options.volumeType, options.throughput)
       else ShowsWanted(env, world, newSizeBytes, options, 1)
  }

  lemma {:induction false} WaitSucceedsIff(s: Session, start: nat, polls: nat, all: seq<Result<Option<string>, ReadError>>)
    requires start <= |all| && s.world.modifications == all[start..]
    ensures WaitForModification(s, polls).0.Ok? <==> exists k :: start <= k < start + polls && DoneAt(all, start, k)
    ensures WaitForModification(s, polls).0.Err? ==> WaitForModification(s, polls).0.error == ErrOther
    decreases polls
  {
    if polls > 0 && start < |all| {
      assert all[start..][0] == all[start] && all[start..][1..] == all[start + 1..];
      WaitSucceedsIff(GetModification(s).1, start + 1, polls - 1, all);
      if SaysDone(all[start]) {
        assert DoneAt(all, start, start);
      } else if all[start].Ok? {
        var next := start + 1;
        if k :| start <= k < start + polls && DoneAt(all, start, k) { assert DoneAt(all, next, k); }
        if k :| next <= k < start + polls && DoneAt(all, next, k) { assert DoneAt(all, start, k); }
      }
    }
  }

  /** The verdict of the last read, whatever came before it. */
  function LastVerdict(
    env: Env, volumes: seq<Result<Volume, ReadError>>, sizeGiB: Int32, options: DiskOptions): Result<Int32, CloudError>
  {
    if volumes == [] then Err(ErrOther)
    else if volumes[0].Err? then Err(if volumes[0].error.Missing? then ErrNotFound else ErrOther)
    else if ShowsAll(env, volumes[0].value, sizeGiB, options.iops, options.volumeType, options.throughput)
    then Ok(volumes[0].value.size)
    else Err(ErrOther)
  }

  lemma CheckGivesLastVerdict(env: Env, s: Session, sizeGiB: Int32, options: DiskOptions)
    ensures CheckDesiredState(env, s, sizeGiB, options).0 == LastVerdict(env, s.world.volumes, sizeGiB, options)
  {
  }

  lemma NeedsUnlessShown(env: Env, volume: Volume, sizeGiB: Int32, options: DiskOptions)
    ensures NeedsModification(env, volume, sizeGiB, options)
            <==> !ShowsAll(env, volume, sizeGiB, options.iops, options.volumeType, options.throughput)
  {
  }

  lemma WaitThenCheckResult(
    env: Env, s: Session, sizeGiB: Int32, options: DiskOptions, all: seq<Result<Option<string>, ReadError>>, start: nat)
    requires start <= |all| && s.world.modifications == all[start..]
    ensures WaitThenCheck(env, s, sizeGiB, options).result
         == if DoneInTime(all, start) then LastVerdict(env, s.world.volumes, sizeGiB, options) else Err(ErrOther)
  {
    WaitSucceedsIff(s, start, MODIFICATION_POLLS, all);
    WaitOnlyReads(s, MODIFICATION_POLLS);
    CheckGivesLastVerdict(env, WaitForModification(s, MODIFICATION_POLLS).1, sizeGiB, options);
  }

  function ErrorOfRefusal(refusal: Refusal): CloudError {
    if refusal.InvalidParameter? then ErrInvalidArgument
    else if refusal.OtherRefusal? then ErrOther
    else ErrLimitExceeded
  }

  /** What the part after the decision answers. */
  lemma StartResult(
    env: Env, s: Session, volume: Volume, sizeGiB: Int32, request: ModifyInput, options: DiskOptions,
    all: seq<Result<Option<string>, ReadError>>)
    requires |all| >= 1 && s.world.modifications == all[1..]
    ensures var result := StartModification(env, s, volume, sizeGiB, request, options).result;
            var last := LastVerdict(env, s.world.volumes, sizeGiB, options);
            if ShowsAll(env, volume, sizeGiB, options.iops, options.volumeType, options.throughput) then
              result == if DoneInTime(all, 1) then last else Err(ErrOther)
            else if |all| < 2 || all[1].Err? || all[1].value == Some("optimizing") then result == Err(ErrOther)
            else if s.world.modifyAnswer.Err? then result == Err(ErrorOfRefusal(s.world.modifyAnswer.error))
            else if SaysDone(Ok(Some(s.world.modifyAnswer.value))) || DoneInTime(all, 2) then result == last
            else result == Err(ErrOther)
  {
    NeedsUnlessShown(env, volume, sizeGiB, options);
    WaitThenCheckResult(env, s, sizeGiB, options, all, 1);
    if |all| >= 2 {
      assert all[1..][0] == all[1] && all[1..][1..] == all[2..];
      var u := CallModify(GetModification(s).1, request).1;
      WaitThenCheckResult(env, u, sizeGiB, options, all, 2);
      CheckGivesLastVerdict(env, u, sizeGiB, options);
    }
  }

  /** The operation's answer in terms of EC2's answers alone, on every path and in every world. */
  ghost function ExpectedResult(env: Env, world: World, newSizeBytes: Int64, options: DiskOptions): Result<Int32, CloudError> {
    if RoundUpGiB(newSizeBytes).Err? || world.volumes == [] then Err(ErrOther)
    else if world.volumes[0].Err? then Err(if world.volumes[0].error.Missing? then ErrNotFound else ErrOther)
    else if world.modifications == [] || world.modifications[0].Err? then Err(ErrOther)
    else
      var gib, first := RoundUpGiB(newSizeBytes).value, world.volumes[0].value;
      if world.modifications[0].value == Some("modifying") then
        if DoneInTime(world.modifications, 1) then LastVerdict(env, world.volumes[1..], gib, options) else Err(ErrOther)
      else if options.iops > 0 && options.iopsPerGB > 0 then Err(ErrOther)
      else if IncreaseFromTags(env, first.tags).Err? then Err(ErrInvalidArgument)
      else
        var (allow, ratio) := IncreaseFromTags(env, first.tags).value;
        var wanted := options.(iops := IopsToShow(env, first, newSizeBytes, gib, options, allow, ratio));
        var last := LastVerdict(env, world.volumes[1..], gib, wanted);
        if ShowsAll(env, first, gib, wanted.iops, options.volumeType, options.throughput) then
          if DoneInTime(world.modifications, 1) then last else Err(ErrOther)
        else if |world.modifications| < 2 || world.modifications[1].Err? || world.modifications[1].value == Some("optimizing")
        then Err(ErrOther)
        else if world.modifyAnswer.Err? then Err(ErrorOfRefusal(world.modifyAnswer.error))
        else if SaysDone(Ok(Some(world.modifyAnswer.value))) || DoneInTime(world.modifications, 2) then last
        else Err(ErrOther)
  }

  lemma {:induction false} BadTagsAreInvalid(env: Env, tags: seq<Tag>)
    ensures IncreaseFromTags(env, tags).Err? ==> IncreaseFromTags(env, tags).error == ErrInvalidArgument
  {
    if tags != [] { BadTagsAreInvalid(env, tags[..|tags| - 1]); }
  }

  lemma ResultIsExpected(env: Env, s: Session, newSizeBytes: Int64, options: DiskOptions)
    ensures ResizeOrModify(env, s, newSizeBytes, options).result == ExpectedResult(env, s.world, newSizeBytes, options)
  {
    var rounded := RoundUpGiB(newSizeBytes);
    if rounded.Ok? && s.world.volumes != [] && s.world.volumes[0].Ok? && s.world.modifications != [] {
      var all, first := s.world.modifications, s.world.volumes[0].value;
      var (latest, s2) := GetModification(GetVolume(s).1);
      WaitThenCheckResult(env, s2, rounded.value, options, all, 1);
      BadTagsAreInvalid(env, first.tags);
      var fromTags := IncreaseFromTags(env, first.tags);
      if fromTags.Ok? {
        var effective := Effective(env, first, newSizeBytes, rounded.value, options, fromTags.value);
        var request := ModifyInputFor(first, newSizeBytes, rounded.value, options, fromTags.value, effective);
        EffectiveIsIopsToShow(env, first, newSizeBytes, rounded.value, options, fromTags.value);
        StartResult(env, s2, first, rounded.value, request, effective, all);
      }
    }
  }

  /**
   * On every path and in every world, the operation succeeds with a size exactly when it reaches its last read
   * and that read shows a volume of this size with everything asked for. On the detour, what was asked for is
   * compared uncapped; a volume that already shows it is waited for; otherwise ModifyVolume must be accepted, and
   * its modification be done at once or within ten polls.
   */
  lemma SucceedsIff(env: Env, s: Session, newSizeBytes: Int64, options: DiskOptions, sizeGiB: Int32)
    ensures ResizeOrModify(env, s, newSizeBytes, options).result == Ok(sizeGiB) <==>
              && ReachesLastRead(env, s.world, newSizeBytes, options)
              && LastReadShows(env, s.world, newSizeBytes, options, sizeGiB)
  {
    ResultIsExpected(env, s, newSizeBytes, options);
  }

  /** The first or the last read does not find the volume. */
  ghost predicate VolumeIsMissing(env: Env, world: World, newSizeBytes: Int64, options: DiskOptions) {
    || (RoundUpGiB(newSizeBytes).Ok? && world.volumes != [] && world.volumes[0] == Err(Missing))
    || (ReachesLastRead(env, world, newSizeBytes, options) && |world.volumes| >= 2 && world.volumes[1] == Err(Missing))
  }

  lemma NotFoundIff(env: Env, s: Session, newSizeBytes: Int64, options: DiskOptions)
    ensures ResizeOrModify(env, s, newSizeBytes, options).result == Err(ErrNotFound)
            <==> VolumeIsMissing(env, s.world, newSizeBytes, options)
  {
    ResultIsExpected(env, s, newSizeBytes, options);
  }

  /** EC2 refuses ModifyVolume for one of its two limits. */
  predicate LimitIsExceeded(env: Env, world: World, newSizeBytes: Int64, options: DiskOptions) {
    && ReachesModify(env, world, newSizeBytes, options)
    && (world.modifyAnswer == Err(SizeLimit) || world.modifyAnswer == Err(IopsLimit))
  }

  lemma LimitExceededIff(env: Env, s: Session, newSizeBytes: Int64, options: DiskOptions)
    ensures ResizeOrModify(env, s, newSizeBytes, options).result == Err(ErrLimitExceeded)
            <==> LimitIsExceeded(env, s.world, newSizeBytes, options)
  {
    ResultIsExpected(env, s, newSizeBytes, options);
  }

  /** A tag cannot be read, or EC2 refuses a parameter of ModifyVolume. */
  predicate ArgumentIsInvalid(env: Env, world: World, newSizeBytes: Int64, options: DiskOptions) {
    || BadTagsAreReached(env, world, newSizeBytes, options)
    || (ReachesModify(env, world, newSizeBytes, options) && world.modifyAnswer == Err(InvalidParameter))
  }

  lemma InvalidArgumentIff(env: Env, s: Session, newSizeBytes: Int64, options: DiskOptions)
    ensures ResizeOrModify(env, s, newSizeBytes, options).result == Err(ErrInvalidArgument)
            <==> ArgumentIsInvalid(env, s.world, newSizeBytes, options)
  {
    ResultIsExpected(env, s, newSizeBytes, options);
  }

  /** Everything is in order up to the tags, one of which cannot be read. */
  predicate BadTagsAreReached(env: Env, world: World, newSizeBytes: Int64, options: DiskOptions) {
    && RoundUpGiB(newSizeBytes).Ok?
    && world.volumes != [] && world.volumes[0].Ok?
    && world.modifications != [] && world.modifications[0].Ok? && world.modifications[0].value != Some("modifying")
    && (options.iops <= 0 || options.iopsPerGB <= 0)
    && IncreaseFromTags(env, world.volumes[0].value.tags).Err?
  }
}
