/**
 * Resizing and modifying a volume against EC2: ResizeOrModifyDisk and its helpers, pkg/cloud/cloud.go.
 *
 * EC2 is an arbitrary `World`: the answers it will give, in order, to each kind of call. Nothing is
 * assumed about them, so a theorem over all worlds holds whatever EC2 does, other writers included. A
 * world that has run out of answers stands for an expired context. `Session` adds the log of the calls
 * made, which is what the ordering theorems speak about.
 */
module VolumeModification {

  import opened Base
  import opened Sizes
  import opened ModifyRequest

  datatype Tag = Tag(key: string, value: string)

  /** EC2 never reports a negative size. */
  type SizeGiB = x: int | 0 <= x <= 0x7fff_ffff

  datatype Volume = Volume(
    size: SizeGiB,
    iops: Option<Int32>,
    volumeType: string,
    throughput: Option<Int32>,
    tags: seq<Tag>)

  datatype ReadError = Missing | ReadFailed
  datatype Refusal = InvalidParameter | SizeLimit | IopsLimit | OtherRefusal
  datatype CloudError = ErrInvalidArgument | ErrNotFound | ErrLimitExceeded | ErrOther

  /** The parameters of one ModifyVolume call; None is a field left out. */
  datatype ModifyInput = ModifyInput(
    size: Option<Int32>,
    volumeType: Option<string>,
    throughput: Option<Int32>,
    iops: Option<Int32>)

  /** A modification answer is the latest modification's state, or None if there never was one. */
  datatype World = World(
    volumes: seq<Result<Volume, ReadError>>,
    modifications: seq<Result<Option<string>, ReadError>>,
    modifyAnswer: Result<string, Refusal>,
    refusesDeleteTags: bool,
    refusesCreateTags: bool)

  datatype Call =
    | ReadVolume(volume: Result<Volume, ReadError>)
    | ReadModification(modification: Result<Option<string>, ReadError>)
    | ModifyVolume(request: ModifyInput, answer: Result<string, Refusal>)
    | DeleteTags(keys: seq<string>, refused: bool)
    | CreateTags(tags: map<string, string>, refused: bool)

  datatype Session = Session(world: World, log: seq<Call>)

  datatype Limits = Limits(maxIops: Int32, minIops: Int32, maxIopsPerGb: Int32)

  /** What the code reads from its surroundings: string library calls, tag keys and IOPS limits. */
  datatype Env = Env(
    equalFold: (string, string) -> bool,
    parseInt: string -> Option<Int32>,
    parseBool: string -> Option<bool>,
    iopsPerGBKey: string,
    allowIncreaseKey: string,
    limits: string -> Limits)

  const MODIFYING := "modifying"
  const OPTIMIZING := "optimizing"
  const COMPLETED := "completed"

  /** Steps of the backoff that polls a modification. */
  const MODIFICATION_POLLS: nat := 10

  // ----- Calls -----

  function GetVolume(s: Session): (Result<Volume, ReadError>, Session) {
    if s.world.volumes == [] then (Err(ReadFailed), s)
    else
      var answer := s.world.volumes[0];
      (answer, Session(s.world.(volumes := s.world.volumes[1..]), s.log + [ReadVolume(answer)]))
  }

  function GetModification(s: Session): (Result<Option<string>, ReadError>, Session) {
    if s.world.modifications == [] then (Err(ReadFailed), s)
    else
      var answer := s.world.modifications[0];
      (answer, Session(s.world.(modifications := s.world.modifications[1..]), s.log + [ReadModification(answer)]))
  }

  function CallModify(s: Session, request: ModifyInput): (Result<string, Refusal>, Session) {
    (s.world.modifyAnswer, s.(log := s.log + [ModifyVolume(request, s.world.modifyAnswer)]))
  }

  function FromReadError(e: ReadError): CloudError {
    if e.Missing? then ErrNotFound else ErrOther
  }

  function FromRefusal(e: Refusal): CloudError {
    match e
    case InvalidParameter => ErrInvalidArgument
    case SizeLimit => ErrLimitExceeded
    case IopsLimit => ErrLimitExceeded
    case OtherRefusal => ErrOther
  }

  predicate ModificationDone(state: string) {
    state == COMPLETED || state == OPTIMIZING
  }

  /** Polls until the latest modification is done; a volume never modified is done. */
  function WaitForModification(s: Session, polls: nat): (Result<(), CloudError>, Session)
    decreases polls
  {
    if polls == 0 then (Err(ErrOther), s)
    else
      var (answer, t) := GetModification(s);
      if answer.Err? then (Err(ErrOther), t)
      else if answer.value.None? || ModificationDone(answer.value.value) then (Ok(()), t)
      else WaitForModification(t, polls - 1)
  }

  // ----- Deciding -----

  function CapIops(capacityGiB: Int32, requested: Int32, limits: Limits, allowIncrease: bool): Int32 {
    if requested == 0 then 0
    else
      var raised := if limits.minIops > 0 && requested < limits.minIops && allowIncrease
                    then limits.minIops else requested;
      var capped := if limits.maxIops > 0 && raised > limits.maxIops then limits.maxIops else raised;
      var byCapacity := Wrap32(limits.maxIopsPerGb * capacityGiB);
      if byCapacity > 0 && capped > byCapacity && byCapacity >= limits.minIops then byCapacity else capped
  }

  predicate NeedsModification(env: Env, volume: Volume, newSizeGiB: Int32, options: DiskOptions) {
    || volume.size < newSizeGiB
    || (options.iops != 0 && volume.iops != Some(options.iops))
    || (options.volumeType != "" && !env.equalFold(volume.volumeType, options.volumeType))
    || (options.throughput != 0 && volume.throughput != Some(options.throughput))
  }

  /** The volume as EC2 now reports it must show every requested value. */
  function CheckDesiredState(env: Env, s: Session, desiredGiB: Int32, options: DiskOptions)
    : (Result<Int32, CloudError>, Session)
  {
    var (answer, t) := GetVolume(s);
    match answer
    case Err(e) => (Err(FromReadError(e)), t)
    case Ok(volume) =>
      if volume.size < desiredGiB then (Err(ErrOther), t)
      else if options.iops != 0 && (volume.iops.None? || volume.iops.value != options.iops) then (Err(ErrOther), t)
      else if options.volumeType != "" && !env.equalFold(volume.volumeType, options.volumeType) then (Err(ErrOther), t)
      else if options.throughput != 0 && (volume.throughput.None? || volume.throughput.value != options.throughput)
      then (Err(ErrOther), t)
      else (Ok(volume.size), t)
  }

  /** The increase flag and the IOPS-per-GB ratio recorded in the volume's tags. */
  function IncreaseFromTags(env: Env, tags: seq<Tag>): Result<(bool, Int32), CloudError> {
    if tags == [] then Ok((false, 0))
    else
      var earlier := IncreaseFromTags(env, tags[..|tags| - 1]);
      var tag := tags[|tags| - 1];
      if earlier.Err? then earlier
      else if tag.key == env.iopsPerGBKey then
        match env.parseInt(tag.value)
        case None => Err(ErrInvalidArgument)
        case Some(ratio) => Ok((earlier.value.0, ratio))
      else if tag.key == env.allowIncreaseKey then
        match env.parseBool(tag.value)
        case None => Err(ErrInvalidArgument)
        case Some(allow) => Ok((allow, earlier.value.1))
      else earlier
  }

  function TargetType(volume: Volume, options: DiskOptions): string {
    if options.volumeType != "" then options.volumeType else volume.volumeType
  }

  function TargetSize(volume: Volume, newSizeBytes: Int64, newSizeGiB: Int32): Int32 {
    if newSizeBytes != 0 then newSizeGiB else volume.size
  }

  /** The IOPS to ask for before capping; 0 leaves them alone. Products wrap as int32. */
  function IopsForModify(options: DiskOptions, size: Int32, fromTags: (bool, Int32)): Int32 {
    if options.iops != 0 then options.iops
    else if options.iopsPerGB != 0 && (options.allowIopsIncreaseOnResize || fromTags.0) then
      Wrap32(size * options.iopsPerGB)
    else if fromTags.1 > 0 && (options.allowIopsIncreaseOnResize || fromTags.0) then
      Wrap32(size * fromTags.1)
    else 0
  }

  /** The options after the IOPS to request have been worked out and capped. */
  function Effective(
    env: Env, volume: Volume, newSizeBytes: Int64, newSizeGiB: Int32, options: DiskOptions, fromTags: (bool, Int32))
    : DiskOptions
  {
    var size := TargetSize(volume, newSizeBytes, newSizeGiB);
    var iops := IopsForModify(options, size, fromTags);
    if iops == 0 then options
    else options.(iops := CapIops(size, iops, env.limits(TargetType(volume, options)), true))
  }

  function ModifyInputFor(
    volume: Volume, newSizeBytes: Int64, newSizeGiB: Int32, options: DiskOptions, fromTags: (bool, Int32), effective: DiskOptions)
    : ModifyInput
  {
    ModifyInput(
      if newSizeBytes != 0 then Some(newSizeGiB) else None,
      if options.volumeType != "" then Some(options.volumeType) else None,
      if options.throughput != 0 then Some(options.throughput) else None,
      if IopsForModify(options, TargetSize(volume, newSizeBytes, newSizeGiB), fromTags) != 0
      then Some(effective.iops) else None)
  }

  // ----- The operation -----

  datatype Outcome = Outcome(result: Result<Int32, CloudError>, session: Session, options: DiskOptions)

  /** Wait for whatever modification is under way, then check the volume. */
  function WaitThenCheck(env: Env, s: Session, newSizeGiB: Int32, options: DiskOptions): Outcome {
    var (waited, t) := WaitForModification(s, MODIFICATION_POLLS);
    if waited.Err? then Outcome(Err(waited.error), t, options)
    else
      var (checked, u) := CheckDesiredState(env, t, newSizeGiB, options);
      Outcome(checked, u, options)
  }

  /** The part after the decision to start a new modification, with the IOPS already worked out. */
  function StartModification(
    env: Env, s: Session, volume: Volume, newSizeGiB: Int32, request: ModifyInput, options: DiskOptions): Outcome
  {
    if !NeedsModification(env, volume, newSizeGiB, options) then WaitThenCheck(env, s, newSizeGiB, options)
    else
      var (latest, t) := GetModification(s);
      if latest.Err? then Outcome(Err(ErrOther), t, options)
      else if latest.value == Some(OPTIMIZING) then Outcome(Err(ErrOther), t, options)
      else
        var (answer, u) := CallModify(t, request);
        if answer.Err? then Outcome(Err(FromRefusal(answer.error)), u, options)
        else if ModificationDone(answer.value) then
          var (checked, w) := CheckDesiredState(env, u, newSizeGiB, options);
          Outcome(checked, w, options)
        else WaitThenCheck(env, u, newSizeGiB, options)
  }

  function ResizeOrModify(env: Env, s: Session, newSizeBytes: Int64, options: DiskOptions): Outcome {
    var rounded := RoundUpGiB(newSizeBytes);
    if rounded.Err? then Outcome(Err(ErrOther), s, options)
    else
      var (described, s1) := GetVolume(s);
      if described.Err? then Outcome(Err(FromReadError(described.error)), s1, options)
      else
        var (latest, s2) := GetModification(s1);
        if latest.Err? then Outcome(Err(ErrOther), s2, options)
        else if latest.value == Some(MODIFYING) then WaitThenCheck(env, s2, rounded.value, options)
        else if options.iops > 0 && options.iopsPerGB > 0 then Outcome(Err(ErrOther), s2, options)
        else
          var fromTags := IncreaseFromTags(env, described.value.tags);
          if fromTags.Err? then Outcome(Err(fromTags.error), s2, options)
          else
            var effective := Effective(env, described.value, newSizeBytes, rounded.value, options, fromTags.value);
            var request := ModifyInputFor(
              described.value, newSizeBytes, rounded.value, options, fromTags.value, effective);
            StartModification(env, s2, described.value, rounded.value, request, effective)
  }

  // ----- IOPS capping -----

  /** Capping again changes nothing, whatever the limits and even if the product wraps. */
  lemma CapIsFixedPoint(capacityGiB: Int32, requested: Int32, limits: Limits, allowIncrease: bool)
    ensures var once := CapIops(capacityGiB, requested, limits, allowIncrease);
            CapIops(capacityGiB, once, limits, allowIncrease) == once
  {
  }

  /** A limit of 0 is infinite; a cap by capacity below the minimum does not apply. */
  predicate OrdinaryLimits(limits: Limits) {
    && limits.maxIops >= 0 && limits.minIops >= 0 && limits.maxIopsPerGb >= 0
    && (limits.maxIops > 0 ==> limits.minIops <= limits.maxIops)
  }

  /** No int32 request is above this one unless the limits forbid it. */
  function TotalLimit(limits: Limits): int {
    if limits.maxIops > 0 then limits.maxIops else MAX_INT32
  }

  /** The largest IOPS the limits allow at this capacity. */
  function Ceiling(capacityGiB: nat, limits: Limits): int {
    var byCapacity := limits.maxIopsPerGb * capacityGiB;
    if 0 < byCapacity < TotalLimit(limits) && byCapacity >= limits.minIops then byCapacity else TotalLimit(limits)
  }

  /** `r` is `requested` moved no further than needed up to `floor`, if there is one, and down to `top`. */
  predicate IsClamp(r: Int32, requested: Int32, floor: int, top: int) {
    && (floor > 0 ==> floor <= r)
    && r <= top
    && (r == requested || (floor > 0 && requested < floor == r) || requested > top == r)
  }

  /** The int32 product wrapped to a number that looks like a tighter cap than the real ones. */
  predicate WrapsToTighterCap(capacityGiB: nat, limits: Limits) {
    var product := limits.maxIopsPerGb * capacityGiB;
    product > MAX_INT32 && 0 < Wrap32(product) < TotalLimit(limits) && limits.minIops <= Wrap32(product)
  }

  /** The cap is the clamp of every request into the allowed range. */
  ghost predicate CapIsClamp(capacityGiB: Int32, limits: Limits, allowIncrease: bool)
    requires capacityGiB >= 0
  {
    forall requested: Int32 :: requested != 0 ==>
      IsClamp(CapIops(capacityGiB, requested, limits, allowIncrease), requested,
              if allowIncrease then limits.minIops else 0, Ceiling(capacityGiB, limits))
  }

  /**
   * The cap clamps, for finite and infinite limits alike, exactly when the product does not wrap to a
   * tighter cap. Products up to the int32 maximum never do.
   */
  lemma CapIsClampIffNoTighterWrap(capacityGiB: Int32, limits: Limits, allowIncrease: bool)
    requires capacityGiB >= 0 && OrdinaryLimits(limits)
    ensures CapIsClamp(capacityGiB, limits, allowIncrease) <==> !WrapsToTighterCap(capacityGiB, limits)
  {
    var product := limits.maxIopsPerGb * capacityGiB;
    assert product >= 0;
    assert product <= MAX_INT32 ==> Wrap32(product) == product;
    if WrapsToTighterCap(capacityGiB, limits) {
      TighterWrapCaps(capacityGiB, limits, allowIncrease);
    } else {
      forall requested: Int32 | requested != 0
        ensures IsClamp(CapIops(capacityGiB, requested, limits, allowIncrease), requested,
                        if allowIncrease then limits.minIops else 0, Ceiling(capacityGiB, limits))
      {
        ClampsWithoutWrap(capacityGiB, requested, limits, allowIncrease, product, Wrap32(product));
      }
    }
  }

  lemma TighterWrapCaps(capacityGiB: Int32, limits: Limits, allowIncrease: bool)
    requires capacityGiB >= 0 && OrdinaryLimits(limits) && WrapsToTighterCap(capacityGiB, limits)
    ensures CapIops(capacityGiB, TotalLimit(limits), limits, allowIncrease)
         == Wrap32(limits.maxIopsPerGb * capacityGiB) < TotalLimit(limits)
    ensures Ceiling(capacityGiB, limits) == TotalLimit(limits)
  {
  }

  lemma ClampsWithoutWrap(
    capacityGiB: Int32, requested: Int32, limits: Limits, allowIncrease: bool, product: int, wrapped: int)
    requires capacityGiB >= 0 && OrdinaryLimits(limits) && !WrapsToTighterCap(capacityGiB, limits) && requested != 0
    requires product == limits.maxIopsPerGb * capacityGiB >= 0 && wrapped == Wrap32(product)
    requires product <= MAX_INT32 ==> wrapped == product
    ensures IsClamp(CapIops(capacityGiB, requested, limits, allowIncrease), requested,
                    if allowIncrease then limits.minIops else 0, Ceiling(capacityGiB, limits))
  {
  }

  /** It does wrap: at 1000 IOPS per GiB, 4294968 GiB cap the allowed 64000 IOPS at 704. */
  lemma TighterWrapHappens()
    ensures var limits := Limits(64000, 100, 1000);
            && OrdinaryLimits(limits) && WrapsToTighterCap(4294968, limits)
            && Ceiling(4294968, limits) == 64000 && CapIops(4294968, 64000, limits, true) == 704
  {
    assert Wrap32(1000 * 4294968) == 704;
  }

  // ----- What the tags say -----

  predicate ReadableTag(env: Env, tag: Tag) {
    && (tag.key == env.iopsPerGBKey ==> env.parseInt(tag.value).Some?)
    && (tag.key == env.allowIncreaseKey && tag.key != env.iopsPerGBKey ==> env.parseBool(tag.value).Some?)
  }

  /** The tags can be read exactly when each of the two that matter can; tags that are absent allow nothing. */
  lemma {:induction false} TagsAreReadIff(env: Env, tags: seq<Tag>)
    ensures IncreaseFromTags(env, tags).Ok? <==> forall i :: 0 <= i < |tags| ==> ReadableTag(env, tags[i])
    ensures IncreaseFromTags(env, tags).Ok? && (forall i :: 0 <= i < |tags| ==> tags[i].key != env.iopsPerGBKey) ==>
              IncreaseFromTags(env, tags).value.1 == 0
    ensures IncreaseFromTags(env, tags).Ok? && (forall i :: 0 <= i < |tags| ==> tags[i].key != env.allowIncreaseKey) ==>
              !IncreaseFromTags(env, tags).value.0
  {
    if tags != [] {
      var last := |tags| - 1;
      TagsAreReadIff(env, tags[..last]);
      assert forall i :: 0 <= i < last ==> tags[..last][i] == tags[i];
    }
  }

  // ----- What a finished call has established -----

  /** `to` extends `from` by describe calls only. */
  ghost predicate OnlyReads(from: seq<Call>, to: seq<Call>) {
    && from <= to
    && forall i :: |from| <= i < |to| ==> to[i].ReadVolume? || to[i].ReadModification?
  }

  lemma {:induction false} WaitOnlyReads(s: Session, polls: nat)
    ensures var t := WaitForModification(s, polls).1;
            && OnlyReads(s.log, t.log)
            && t.world.volumes == s.world.volumes
            && t.world.modifyAnswer == s.world.modifyAnswer
    decreases polls
  {
    if polls > 0 {
      var (answer, t) := GetModification(s);
      assert OnlyReads(s.log, t.log);
      WaitOnlyReads(t, polls - 1);
    }
  }

  /** The final check and the test that decides on a modification are exact opposites. */
  lemma CheckIsNegationOfNeed(env: Env, s: Session, desiredGiB: Int32, options: DiskOptions)
    requires s.world.volumes != [] && s.world.volumes[0].Ok?
    ensures var volume := s.world.volumes[0].value;
            && (CheckDesiredState(env, s, desiredGiB, options).0.Ok?
                <==> !NeedsModification(env, volume, desiredGiB, options))
            && (CheckDesiredState(env, s, desiredGiB, options).0.Ok? ==>
                  CheckDesiredState(env, s, desiredGiB, options).0.value == volume.size)
  {
  }

  /** The last call of `s` read a volume of this size that shows every option. */
  ghost predicate EndsWithGoodRead(env: Env, s: Session, sizeGiB: Int32, desiredGiB: Int32, options: DiskOptions) {
    && s.log != []
    && var last := s.log[|s.log| - 1];
       && last.ReadVolume? && last.volume.Ok?
       && last.volume.value.size == sizeGiB
       && !NeedsModification(env, last.volume.value, desiredGiB, options)
  }

  lemma WaitThenCheckVerifies(env: Env, s: Session, newSizeGiB: Int32, options: DiskOptions)
    ensures var out := WaitThenCheck(env, s, newSizeGiB, options);
            && OnlyReads(s.log, out.session.log)
            && (out.result.Ok? ==> EndsWithGoodRead(env, out.session, out.result.value, newSizeGiB, options))
  {
    WaitOnlyReads(s, MODIFICATION_POLLS);
    var (waited, t) := WaitForModification(s, MODIFICATION_POLLS);
    if t.world.volumes != [] && t.world.volumes[0].Ok? {
      CheckIsNegationOfNeed(env, t, newSizeGiB, options);
    }
  }

  /**
   * On every path and in every world, success means that the last thing EC2 was asked is the volume
   * itself, that it showed every requested value, and that its size is the one returned.
   */
  lemma SuccessIsVerified(env: Env, s: Session, newSizeBytes: Int64, options: DiskOptions)
    requires ResizeOrModify(env, s, newSizeBytes, options).result.Ok?
    ensures RoundUpGiB(newSizeBytes).Ok?
    ensures var out := ResizeOrModify(env, s, newSizeBytes, options);
            && EndsWithGoodRead(env, out.session, out.result.value, RoundUpGiB(newSizeBytes).value, out.options)
            && out.result.value >= RoundUpGiB(newSizeBytes).value
  {
    StartVerifies(env, s, newSizeBytes, options);
  }

  lemma StartVerifies(env: Env, s: Session, newSizeBytes: Int64, options: DiskOptions)
    ensures var out := ResizeOrModify(env, s, newSizeBytes, options);
            out.result.Ok? ==>
              && RoundUpGiB(newSizeBytes).Ok?
              && EndsWithGoodRead(env, out.session, out.result.value, RoundUpGiB(newSizeBytes).value, out.options)
  {
    var gib := RoundUpGiB(newSizeBytes);
    if gib.Ok? {
      var (described, s1) := GetVolume(s);
      var (latest, s2) := GetModification(s1);
      WaitThenCheckVerifies(env, s2, gib.value, options);
      if described.Ok? {
        var fromTags := IncreaseFromTags(env, described.value.tags);
        if fromTags.Ok? {
          var effective := Effective(env, described.value, newSizeBytes, gib.value, options, fromTags.value);
          var request := ModifyInputFor(
            described.value, newSizeBytes, gib.value, options, fromTags.value, effective);
          StartModificationVerifies(env, s2, described.value, gib.value, request, effective);
        }
      }
    }
  }

  lemma StartModificationVerifies(
    env: Env, s: Session, volume: Volume, newSizeGiB: Int32, request: ModifyInput, options: DiskOptions)
    ensures var out := StartModification(env, s, volume, newSizeGiB, request, options);
            out.result.Ok? ==> EndsWithGoodRead(env, out.session, out.result.value, newSizeGiB, options)
  {
    WaitThenCheckVerifies(env, s, newSizeGiB, options);
    var (latest, t) := GetModification(s);
    var (answer, u) := CallModify(t, request);
    WaitThenCheckVerifies(env, u, newSizeGiB, options);
    if u.world.volumes != [] && u.world.volumes[0].Ok? {
      CheckIsNegationOfNeed(env, u, newSizeGiB, options);
    }
  }

  /** The IOPS to ask for before capping, `first` being the volume as first read. */
  function WantedIops(env: Env, first: Volume, newSizeBytes: Int64, newSizeGiB: Int32, requested: DiskOptions): Int32
    requires IncreaseFromTags(env, first.tags).Ok?
  {
    IopsForModify(requested, TargetSize(first, newSizeBytes, newSizeGiB), IncreaseFromTags(env, first.tags).value)
  }

  /** These IOPS capped for the size and the type that `first` is to get. */
  function CappedFor(
    env: Env, first: Volume, newSizeBytes: Int64, newSizeGiB: Int32, requested: DiskOptions, wanted: Int32): Int32
  {
    CapIops(TargetSize(first, newSizeBytes, newSizeGiB), wanted, env.limits(TargetType(first, requested)), true)
  }

  /**
   * The options the final check used. Type and throughput are as requested. The IOPS are as requested on the
   * detour; otherwise they are the wanted ones, asked for outright or derived from a ratio, after capping.
   */
  predicate CheckedAs(
    env: Env, first: Volume, detour: bool, newSizeBytes: Int64, newSizeGiB: Int32, checked: DiskOptions, requested: DiskOptions)
  {
    && checked.volumeType == requested.volumeType
    && checked.throughput == requested.throughput
    && (detour ==> checked.iops == requested.iops)
    && (!detour ==>
          && IncreaseFromTags(env, first.tags).Ok?
          && var wanted := WantedIops(env, first, newSizeBytes, newSizeGiB, requested);
             && (requested.iops != 0 ==> wanted == requested.iops)
             && checked.iops == CappedFor(env, first, newSizeBytes, newSizeGiB, requested, wanted)
             && (wanted != 0 ==> checked.iops != 0))
  }

  /** The detour leaves the caller's options alone, and every other path changes nothing but the IOPS. */
  lemma OptionsChangeOnlyByCapping(env: Env, s: Session, newSizeBytes: Int64, options: DiskOptions)
    requires ResizeOrModify(env, s, newSizeBytes, options).result.Ok?
    ensures RoundUpGiB(newSizeBytes).Ok?
    ensures s.world.volumes != [] && s.world.volumes[0].Ok? && s.world.modifications != []
    ensures CheckedAs(env, s.world.volumes[0].value, s.world.modifications[0] == Ok(Some(MODIFYING)), newSizeBytes,
                      RoundUpGiB(newSizeBytes).value, ResizeOrModify(env, s, newSizeBytes, options).options, options)
  {
  }

  /** The IOPS that will be asked for and checked once the tags' flag and ratio are known; 0 for none. */
  function IopsToShow(
    env: Env, volume: Volume, newSizeBytes: Int64, newSizeGiB: Int32, options: DiskOptions, allow: bool, ratio: Int32): Int32
  {
    var size: Int32 := if newSizeBytes == 0 then volume.size else newSizeGiB;
    var limits := env.limits(if options.volumeType == "" then volume.volumeType else options.volumeType);
    if options.iops != 0 then CapIops(size, options.iops, limits, true)
    else if !options.allowIopsIncreaseOnResize && !allow then 0
    else if options.iopsPerGB != 0 then CapIops(size, Wrap32(options.iopsPerGB * size), limits, true)
    else if ratio > 0 then CapIops(size, Wrap32(ratio * size), limits, true)
    else 0
  }

  lemma EffectiveIsIopsToShow(
    env: Env, volume: Volume, newSizeBytes: Int64, newSizeGiB: Int32, options: DiskOptions, fromTags: (bool, Int32))
    ensures Effective(env, volume, newSizeBytes, newSizeGiB, options, fromTags)
         == options.(iops := IopsToShow(env, volume, newSizeBytes, newSizeGiB, options, fromTags.0, fromTags.1))
  {
    var size := TargetSize(volume, newSizeBytes, newSizeGiB);
    assert options.iopsPerGB * size == size * options.iopsPerGB && fromTags.1 * size == size * fromTags.1;
  }

  // ----- When ModifyVolume is called -----

  /** The calls of `to` beyond `from` contain no ModifyVolume. */
  ghost predicate NoModify(from: seq<Call>, to: seq<Call>) {
    from <= to && forall i :: |from| <= i < |to| ==> !to[i].ModifyVolume?
  }

  /**
   * The calls beyond `from` start with a volume, a modification that is not under way and one that is
   * not optimizing; the fourth is the one ModifyVolume, and only reads follow.
   */
  ghost predicate OneGuardedModify(from: seq<Call>, to: seq<Call>, env: Env, newSizeBytes: Int64, options: DiskOptions) {
    var n := |from|;
    && from <= to && |to| >= n + 4 && RoundUpGiB(newSizeBytes).Ok?
    && to[n].ReadVolume? && to[n].volume.Ok?
    && to[n + 1].ReadModification? && to[n + 1].modification.Ok? && to[n + 1].modification.value != Some(MODIFYING)
    && to[n + 2].ReadModification? && to[n + 2].modification.Ok? && to[n + 2].modification.value != Some(OPTIMIZING)
    && to[n + 3].ModifyVolume?
    && AsksForDifference(env, to[n].volume.value, newSizeBytes, RoundUpGiB(newSizeBytes).value, options, to[n + 3].request)
    && forall i :: n + 4 <= i < |to| ==> !to[i].ModifyVolume?
  }

  /** The request names each option asked for, and the volume does not yet show all of them. */
  ghost predicate AsksForDifference(
    env: Env, volume: Volume, newSizeBytes: Int64, newSizeGiB: Int32, options: DiskOptions, request: ModifyInput)
  {
    && request.size == (if newSizeBytes != 0 then Some(newSizeGiB) else None)
    && request.volumeType == (if options.volumeType != "" then Some(options.volumeType) else None)
    && request.throughput == (if options.throughput != 0 then Some(options.throughput) else None)
    && IncreaseFromTags(env, volume.tags).Ok?
    && (var (allow, ratio) := IncreaseFromTags(env, volume.tags).value;
        var iops := IopsToShow(env, volume, newSizeBytes, newSizeGiB, options, allow, ratio);
        request.iops == if iops != 0 then Some(iops) else None)
    && (volume.size < newSizeGiB
        || (request.iops.Some? && volume.iops != request.iops)
        || (request.volumeType.Some? && !env.equalFold(volume.volumeType, request.volumeType.value))
        || (request.throughput.Some? && volume.throughput != request.throughput))
  }

  lemma NeedIsDifference(
    env: Env, volume: Volume, newSizeBytes: Int64, newSizeGiB: Int32, options: DiskOptions, fromTags: (bool, Int32))
    requires IncreaseFromTags(env, volume.tags) == Ok(fromTags)
    ensures var effective := Effective(env, volume, newSizeBytes, newSizeGiB, options, fromTags);
            NeedsModification(env, volume, newSizeGiB, effective) ==>
              AsksForDifference(env, volume, newSizeBytes, newSizeGiB, options,
                ModifyInputFor(volume, newSizeBytes, newSizeGiB, options, fromTags, effective))
  {
    EffectiveIsIopsToShow(env, volume, newSizeBytes, newSizeGiB, options, fromTags);
    CapKeepsNonZero(
      TargetSize(volume, newSizeBytes, newSizeGiB), IopsForModify(options, TargetSize(volume, newSizeBytes, newSizeGiB), fromTags),
      env.limits(TargetType(volume, options)));
  }

  lemma CapKeepsNonZero(capacityGiB: Int32, requested: Int32, limits: Limits)
    ensures CapIops(capacityGiB, requested, limits, true) == 0 <==> requested == 0
  {
  }

  /** ModifyVolume is called at most once, for a real difference, and only behind its two guards. */
  lemma ModifyIsGuarded(env: Env, s: Session, newSizeBytes: Int64, options: DiskOptions)
    ensures var out := ResizeOrModify(env, s, newSizeBytes, options);
            NoModify(s.log, out.session.log)
            || OneGuardedModify(s.log, out.session.log, env, newSizeBytes, options)
  {
    var gib := RoundUpGiB(newSizeBytes);
    if gib.Err? { return; }
    var (described, s1) := GetVolume(s);
    if described.Err? { return; }
    var volume := described.value;
    var (latest, s2) := GetModification(s1);
    if latest.Err? { return; }
    if latest.value == Some(MODIFYING) {
      WaitThenCheckVerifies(env, s2, gib.value, options);
      return;
    }
    var fromTags := IncreaseFromTags(env, volume.tags);
    if (options.iops > 0 && options.iopsPerGB > 0) || fromTags.Err? { return; }
    assert s2.log == s.log + [ReadVolume(described), ReadModification(latest)];
    StartIsGuarded(env, s.log, s2, volume, latest.value, newSizeBytes, options, fromTags.value);
  }

  lemma StartIsGuarded(
    env: Env, from: seq<Call>, s: Session, volume: Volume, latest: Option<string>, newSizeBytes: Int64,
    options: DiskOptions, fromTags: (bool, Int32))
    requires RoundUpGiB(newSizeBytes).Ok? && latest != Some(MODIFYING) && IncreaseFromTags(env, volume.tags) == Ok(fromTags)
    requires s.log == from + [ReadVolume(Ok(volume)), ReadModification(Ok(latest))]
    ensures var gib := RoundUpGiB(newSizeBytes).value;
            var effective := Effective(env, volume, newSizeBytes, gib, options, fromTags);
            var request := ModifyInputFor(volume, newSizeBytes, gib, options, fromTags, effective);
            var to := StartModification(env, s, volume, gib, request, effective).session.log;
            NoModify(from, to) || OneGuardedModify(from, to, env, newSizeBytes, options)
  {
    var gib := RoundUpGiB(newSizeBytes).value;
    var effective := Effective(env, volume, newSizeBytes, gib, options, fromTags);
    var request := ModifyInputFor(volume, newSizeBytes, gib, options, fromTags, effective);
    var to := StartModification(env, s, volume, gib, request, effective).session.log;
    StartModificationShape(env, s, volume, gib, request, effective);
    NeedIsDifference(env, volume, newSizeBytes, gib, options, fromTags);
    if !NoModify(s.log, to) { GuardedByShape(env, from, to, newSizeBytes, options, volume, latest); }
  }

  lemma GuardedByShape(
    env: Env, from: seq<Call>, to: seq<Call>, newSizeBytes: Int64, options: DiskOptions, volume: Volume, latest: Option<string>)
    requires RoundUpGiB(newSizeBytes).Ok? && latest != Some(MODIFYING)
    requires from + [ReadVolume(Ok(volume)), ReadModification(Ok(latest))] <= to && |to| >= |from| + 4
    requires var third := to[|from| + 2];
             third.ReadModification? && third.modification.Ok? && third.modification.value != Some(OPTIMIZING)
    requires to[|from| + 3].ModifyVolume?
    requires AsksForDifference(
               env, volume, newSizeBytes, RoundUpGiB(newSizeBytes).value, options, to[|from| + 3].request)
    requires forall i :: |from| + 4 <= i < |to| ==> !to[i].ModifyVolume?
    ensures OneGuardedModify(from, to, env, newSizeBytes, options)
  {
    var start := from + [ReadVolume(Ok(volume)), ReadModification(Ok(latest))];
    assert to[|from|] == start[|from|] && to[|from| + 1] == start[|from| + 1];
    assert from <= start;
  }

  lemma StartModificationShape(
    env: Env, s: Session, volume: Volume, newSizeGiB: Int32, request: ModifyInput, options: DiskOptions)
    ensures var to := StartModification(env, s, volume, newSizeGiB, request, options).session.log;
            var n := |s.log|;
            || NoModify(s.log, to)
            || (&& s.log <= to && |to| >= n + 2
                && to[n].ReadModification? && to[n].modification.Ok? && to[n].modification.value != Some(OPTIMIZING)
                && to[n + 1].ModifyVolume? && to[n + 1].request == request
                && NeedsModification(env, volume, newSizeGiB, options)
                && forall i :: n + 2 <= i < |to| ==> !to[i].ModifyVolume?)
  {
    WaitThenCheckVerifies(env, s, newSizeGiB, options);
    var (latest, t) := GetModification(s);
    var (answer, u) := CallModify(t, request);
    WaitThenCheckVerifies(env, u, newSizeGiB, options);
  }

  /** A successful operation began by reading the volume and its latest modification. */
  lemma FirstReadsAreLogged(env: Env, s: Session, newSizeBytes: Int64, options: DiskOptions)
    requires ResizeOrModify(env, s, newSizeBytes, options).result.Ok?
    ensures s.world.volumes != [] && s.world.modifications != []
    ensures s.log + [ReadVolume(s.world.volumes[0]), ReadModification(s.world.modifications[0])]
         <= ResizeOrModify(env, s, newSizeBytes, options).session.log
  {
    var gib := RoundUpGiB(newSizeBytes).value;
    var (described, s1) := GetVolume(s);
    var volume := described.value;
    var (latest, s2) := GetModification(s1);
    assert s2.log == s.log + [ReadVolume(described), ReadModification(latest)];
    WaitThenCheckVerifies(env, s2, gib, options);
    var fromTags := IncreaseFromTags(env, volume.tags);
    if latest.value != Some(MODIFYING) {
      var effective := Effective(env, volume, newSizeBytes, gib, options, fromTags.value);
      var request := ModifyInputFor(volume, newSizeBytes, gib, options, fromTags.value, effective);
      StartModificationShape(env, s2, volume, gib, request, effective);
    }
  }

  // ----- What an invalid-argument error says -----

  /** Beyond `from`, every ModifyVolume was refused and no tags were touched. */
  ghost predicate NothingChanged(from: seq<Call>, to: seq<Call>) {
    && from <= to
    && forall i :: |from| <= i < |to| ==>
         !to[i].DeleteTags? && !to[i].CreateTags? && (to[i].ModifyVolume? ==> to[i].answer.Err?)
  }

  lemma {:induction false} WaitNeverInvalid(s: Session, polls: nat)
    ensures WaitForModification(s, polls).0 != Err(ErrInvalidArgument)
    decreases polls
  {
    if polls > 0 { WaitNeverInvalid(GetModification(s).1, polls - 1); }
  }

  lemma WaitThenCheckNeverInvalid(env: Env, s: Session, newSizeGiB: Int32, options: DiskOptions)
    ensures WaitThenCheck(env, s, newSizeGiB, options).result != Err(ErrInvalidArgument)
  {
    WaitNeverInvalid(s, MODIFICATION_POLLS);
  }

  lemma StartInvalidMeansRefused(
    env: Env, s: Session, volume: Volume, newSizeGiB: Int32, request: ModifyInput, options: DiskOptions)
    requires StartModification(env, s, volume, newSizeGiB, request, options).result == Err(ErrInvalidArgument)
    ensures NothingChanged(s.log, StartModification(env, s, volume, newSizeGiB, request, options).session.log)
  {
    WaitThenCheckNeverInvalid(env, s, newSizeGiB, options);
    WaitThenCheckNeverInvalid(env, CallModify(GetModification(s).1, request).1, newSizeGiB, options);
  }

  /** Resizing reports an invalid argument only if nothing about the volume was changed. */
  lemma InvalidMeansRefused(env: Env, s: Session, newSizeBytes: Int64, options: DiskOptions)
    requires ResizeOrModify(env, s, newSizeBytes, options).result == Err(ErrInvalidArgument)
    ensures NothingChanged(s.log, ResizeOrModify(env, s, newSizeBytes, options).session.log)
  {
    var gib := RoundUpGiB(newSizeBytes).value;
    var (described, s1) := GetVolume(s);
    var volume := described.value;
    var (latest, s2) := GetModification(s1);
    WaitThenCheckNeverInvalid(env, s2, gib, options);
    var fromTags := IncreaseFromTags(env, volume.tags);
    if fromTags.Ok? {
      var effective := Effective(env, volume, newSizeBytes, gib, options, fromTags.value);
      var request := ModifyInputFor(volume, newSizeBytes, gib, options, fromTags.value, effective);
      StartInvalidMeansRefused(env, s2, volume, gib, request, effective);
    }
  }

  // ----- Repeating a request -----

  /**
   * A volume that already shows the target is left alone, whatever EC2 answers afterwards and whether or
   * not a modification is under way.
   */
  lemma SettledVolumeIsLeftAlone(env: Env, s: Session, newSizeBytes: Int64, options: DiskOptions)
    requires RoundUpGiB(newSizeBytes).Ok? && s.world.volumes != [] && s.world.volumes[0].Ok?
    requires var volume := s.world.volumes[0].value;
             var fromTags := IncreaseFromTags(env, volume.tags);
             var gib := RoundUpGiB(newSizeBytes).value;
             fromTags.Ok? ==>
               !NeedsModification(env, volume, gib, Effective(env, volume, newSizeBytes, gib, options, fromTags.value))
    ensures NoModify(s.log, ResizeOrModify(env, s, newSizeBytes, options).session.log)
  {
    var gib := RoundUpGiB(newSizeBytes).value;
    var (described, s1) := GetVolume(s);
    var (latest, s2) := GetModification(s1);
    WaitThenCheckVerifies(env, s2, gib, options);
    var fromTags := IncreaseFromTags(env, described.value.tags);
    if fromTags.Ok? {
      WaitThenCheckVerifies(env, s2, gib, Effective(env, described.value, newSizeBytes, gib, options, fromTags.value));
    }
  }

  /** A run that read `before` first, did not find it modifying, succeeded, and last read `after`. */
  ghost predicate ModifiedFromTo(
    env: Env, s: Session, newSizeBytes: Int64, options: DiskOptions, before: Volume, after: Volume)
  {
    var out := ResizeOrModify(env, s, newSizeBytes, options);
    && s.world.volumes != [] && s.world.volumes[0] == Ok(before)
    && s.world.modifications != [] && s.world.modifications[0] != Ok(Some(MODIFYING))
    && out.result.Ok?
    && out.session.log != [] && out.session.log[|out.session.log| - 1] == ReadVolume(Ok(after))
  }

  /** Nothing but the requested fields differs. */
  predicate OtherwiseUnchanged(before: Volume, after: Volume, newSizeBytes: Int64, options: DiskOptions) {
    && after.tags == before.tags
    && (newSizeBytes != 0 || after.size == before.size)
    && (options.volumeType != "" || after.volumeType == before.volumeType)
  }

  lemma SuccessLeavesEffectiveOptions(
    env: Env, s: Session, newSizeBytes: Int64, options: DiskOptions, before: Volume, after: Volume)
    requires ModifiedFromTo(env, s, newSizeBytes, options, before, after)
    ensures RoundUpGiB(newSizeBytes).Ok? && IncreaseFromTags(env, before.tags).Ok?
    ensures var gib := RoundUpGiB(newSizeBytes).value;
            var out := ResizeOrModify(env, s, newSizeBytes, options);
            && out.options == Effective(env, before, newSizeBytes, gib, options, IncreaseFromTags(env, before.tags).value)
            && !NeedsModification(env, after, gib, out.options)
  {
    SuccessIsVerified(env, s, newSizeBytes, options);
  }

  /**
   * Once a request has succeeded, repeating it on the volume it left behind calls ModifyVolume no more,
   * with fresh options as well as with the options the first run capped in place.
   */
  lemma RepeatIsQuiet(
    env: Env, s: Session, newSizeBytes: Int64, options: DiskOptions, before: Volume, after: Volume, again: Session)
    requires ModifiedFromTo(env, s, newSizeBytes, options, before, after)
    requires OtherwiseUnchanged(before, after, newSizeBytes, options)
    requires again.world.volumes != [] && again.world.volumes[0] == Ok(after)
    ensures NoModify(again.log, ResizeOrModify(env, again, newSizeBytes, options).session.log)
    ensures var capped := ResizeOrModify(env, s, newSizeBytes, options).options;
            NoModify(again.log, ResizeOrModify(env, again, newSizeBytes, capped).session.log)
  {
    SuccessLeavesEffectiveOptions(env, s, newSizeBytes, options, before, after);
    var gib := RoundUpGiB(newSizeBytes).value;
    var fromTags := IncreaseFromTags(env, before.tags).value;
    var capped := Effective(env, before, newSizeBytes, gib, options, fromTags);
    var size := TargetSize(before, newSizeBytes, gib);
    assert TargetSize(after, newSizeBytes, gib) == size;
    assert Effective(env, after, newSizeBytes, gib, options, fromTags) == capped;
    SettledVolumeIsLeftAlone(env, again, newSizeBytes, options);
    if options.iops == 0 && capped.iops != 0 {
      CapIsFixedPoint(size, IopsForModify(options, size, fromTags), env.limits(TargetType(before, options)), true);
    } else {
      CapIsFixedPoint(size, options.iops, env.limits(TargetType(before, options)), true);
    }
    assert Effective(env, after, newSizeBytes, gib, capped, fromTags) == capped;
    SettledVolumeIsLeftAlone(env, again, newSizeBytes, capped);
  }

  lemma CapDecidesNeed(env: Env, volume: Volume, newSizeBytes: Int64, newSizeGiB: Int32, options: DiskOptions, fromTags: (bool, Int32))
    requires !NeedsModification(env, volume, newSizeGiB, options)
    ensures var effective := Effective(env, volume, newSizeBytes, newSizeGiB, options, fromTags);
            NeedsModification(env, volume, newSizeGiB, effective)
            <==> effective.iops != options.iops && volume.iops != Some(effective.iops)
  {
  }

  /** A run that found the volume modifying, succeeded, and last read `after`. */
  ghost predicate DetouredTo(env: Env, s: Session, newSizeBytes: Int64, options: DiskOptions, after: Volume) {
    var out := ResizeOrModify(env, s, newSizeBytes, options);
    && s.world.modifications != [] && s.world.modifications[0] == Ok(Some(MODIFYING))
    && out.result.Ok?
    && out.session.log != [] && out.session.log[|out.session.log| - 1] == ReadVolume(Ok(after))
  }

  /** EC2 first shows this volume, and neither of the two guards of ModifyVolume is in the way. */
  predicate GuardsOpen(s: Session, volume: Volume) {
    && s.world.volumes != [] && s.world.volumes[0] == Ok(volume)
    && |s.world.modifications| >= 2 && s.world.modifications[0].Ok? && s.world.modifications[1].Ok?
    && s.world.modifications[0].value != Some(MODIFYING) && s.world.modifications[1].value != Some(OPTIMIZING)
  }

  /**
   * The detour for a modification already under way compares with the uncapped options. After a success
   * through it, repeating the request on the volume left behind calls ModifyVolume exactly when capping
   * changes the IOPS to ask for and the volume does not happen to have the capped ones.
   */
  lemma RepeatAfterDetourIsQuietIff(
    env: Env, s: Session, newSizeBytes: Int64, options: DiskOptions, after: Volume, again: Session)
    requires DetouredTo(env, s, newSizeBytes, options, after) && GuardsOpen(again, after)
    requires !(options.iops > 0 && options.iopsPerGB > 0) && IncreaseFromTags(env, after.tags).Ok?
    ensures RoundUpGiB(newSizeBytes).Ok?
    ensures var gib, fromTags := RoundUpGiB(newSizeBytes).value, IncreaseFromTags(env, after.tags).value;
            var capped := Effective(env, after, newSizeBytes, gib, options, fromTags);
            NoModify(again.log, ResizeOrModify(env, again, newSizeBytes, options).session.log)
            <==> capped.iops == options.iops || after.iops == Some(capped.iops)
  {
    SuccessIsVerified(env, s, newSizeBytes, options);
    DetourKeepsOptions(env, s, newSizeBytes, options);
    var gib, fromTags := RoundUpGiB(newSizeBytes).value, IncreaseFromTags(env, after.tags).value;
    CapDecidesNeed(env, after, newSizeBytes, gib, options, fromTags);
    ModifiesIffNeeded(env, again, newSizeBytes, options, after);
  }

  lemma DetourKeepsOptions(env: Env, s: Session, newSizeBytes: Int64, options: DiskOptions)
    requires s.world.modifications != [] && s.world.modifications[0] == Ok(Some(MODIFYING))
    ensures ResizeOrModify(env, s, newSizeBytes, options).options == options
  {
  }

  /** A volume of 10 GiB with 5000 IOPS, first while it is being modified and then at rest. */
  const FAST_VOLUME := Volume(10, Some(5000), "io1", None, [])
  const MODIFYING_WORLD :=
    World([Ok(FAST_VOLUME), Ok(FAST_VOLUME)], [Ok(Some(MODIFYING)), Ok(Some(COMPLETED))], Err(OtherRefusal), false, false)
  const RESTING_WORLD :=
    World([Ok(FAST_VOLUME)], [Ok(Some(COMPLETED)), Ok(Some(COMPLETED))], Err(OtherRefusal), false, false)

  /** It happens: where 50 IOPS per GiB are allowed, 5000 pass the detour, and the repeat calls ModifyVolume. */
  lemma RepeatAfterDetourModifies(env: Env)
    requires env.limits("io1") == Limits(64000, 100, 50)
    ensures var options := NO_OPTIONS.(iops := 5000);
            var first := ResizeOrModify(env, Session(MODIFYING_WORLD, []), 0, options);
            var second := ResizeOrModify(env, Session(RESTING_WORLD, []), 0, options);
            && first.result == Ok(10)
            && DetouredTo(env, Session(MODIFYING_WORLD, []), 0, options, FAST_VOLUME)
            && !NoModify([], second.session.log)
  {
    var options := NO_OPTIONS.(iops := 5000);
    var s := Session(MODIFYING_WORLD, []);
    GiBRoundTrip(0);
    assert RoundUpGiB(0) == Ok(0);
    DetourAcceptsUncapped(env, s, 0, options, FAST_VOLUME);
    assert IncreaseFromTags(env, []) == Ok((false, 0));
    ModifiesIffNeeded(env, Session(RESTING_WORLD, []), 0, options, FAST_VOLUME);
    CappedTo500(env);
  }

  lemma CappedTo500(env: Env)
    requires env.limits("io1") == Limits(64000, 100, 50)
    ensures Effective(env, FAST_VOLUME, 0, 0, NO_OPTIONS.(iops := 5000), (false, 0)).iops == 500
  {
  }

  /** The detour accepts every volume that shows the uncapped options, and last reads that volume. */
  lemma DetourAcceptsUncapped(env: Env, s: Session, newSizeBytes: Int64, options: DiskOptions, volume: Volume)
    requires RoundUpGiB(newSizeBytes).Ok? && !NeedsModification(env, volume, RoundUpGiB(newSizeBytes).value, options)
    requires |s.world.volumes| >= 2 && s.world.volumes[0].Ok? && s.world.volumes[1] == Ok(volume)
    requires |s.world.modifications| >= 2
    requires s.world.modifications[0] == Ok(Some(MODIFYING)) && s.world.modifications[1] == Ok(Some(COMPLETED))
    ensures ResizeOrModify(env, s, newSizeBytes, options).result == Ok(volume.size)
    ensures DetouredTo(env, s, newSizeBytes, options, volume)
  {
    var (_, s2) := GetModification(GetVolume(s).1);
    CompletedWaitChecks(env, s2, RoundUpGiB(newSizeBytes).value, options);
  }

  lemma CompletedWaitChecks(env: Env, s: Session, newSizeGiB: Int32, options: DiskOptions)
    requires s.world.modifications != [] && s.world.modifications[0] == Ok(Some(COMPLETED))
    requires s.world.volumes != [] && s.world.volumes[0].Ok?
    requires !NeedsModification(env, s.world.volumes[0].value, newSizeGiB, options)
    ensures var out := WaitThenCheck(env, s, newSizeGiB, options);
            && out.result == Ok(s.world.volumes[0].value.size)
            && out.session.log != [] && out.session.log[|out.session.log| - 1] == ReadVolume(s.world.volumes[0])
  {
    var (_, t) := GetModification(s);
    assert WaitForModification(s, MODIFICATION_POLLS) == (Ok(()), t);
    CheckIsNegationOfNeed(env, t, newSizeGiB, options);
  }

  /**
   * Past the error checks, and with neither guard in the way, ModifyVolume is called exactly when the volume
   * does not show the capped options.
   */
  lemma ModifiesIffNeeded(env: Env, s: Session, newSizeBytes: Int64, options: DiskOptions, volume: Volume)
    requires RoundUpGiB(newSizeBytes).Ok? && !(options.iops > 0 && options.iopsPerGB > 0)
    requires GuardsOpen(s, volume) && IncreaseFromTags(env, volume.tags).Ok?
    ensures var gib, fromTags := RoundUpGiB(newSizeBytes).value, IncreaseFromTags(env, volume.tags).value;
            NoModify(s.log, ResizeOrModify(env, s, newSizeBytes, options).session.log)
            <==> !NeedsModification(env, volume, gib, Effective(env, volume, newSizeBytes, gib, options, fromTags))
  {
    var gib, fromTags := RoundUpGiB(newSizeBytes).value, IncreaseFromTags(env, volume.tags).value;
    var effective := Effective(env, volume, newSizeBytes, gib, options, fromTags);
    if !NeedsModification(env, volume, gib, effective) {
      SettledVolumeIsLeftAlone(env, s, newSizeBytes, options);
    } else {
      var request := ModifyInputFor(volume, newSizeBytes, gib, options, fromTags, effective);
      var s2 := GetModification(GetVolume(s).1).1;
      var s4 := CallModify(GetModification(s2).1, request).1;
      assert s4.log[|s.log| + 3].ModifyVolume?;
      WaitThenCheckVerifies(env, s4, gib, effective);
      assert s4.log <= StartModification(env, s2, volume, gib, request, effective).session.log;
    }
  }

  // ----- The imperative code -----

  /** The EC2 client. */
  class Client {
    var session: Session

    constructor (world: World)
      ensures session == Session(world, [])
    {
      session := Session(world, []);
    }

    method DescribeVolume() returns (answer: Result<Volume, ReadError>)
      modifies this
      ensures (answer, session) == GetVolume(old(session))
    {
      var step := GetVolume(session);
      answer, session := step.0, step.1;
    }

    method DescribeModification() returns (answer: Result<Option<string>, ReadError>)
      modifies this
      ensures (answer, session) == GetModification(old(session))
    {
      var step := GetModification(session);
      answer, session := step.0, step.1;
    }

    method WaitForVolumeModification() returns (r: Result<(), CloudError>)
      modifies this
      ensures (r, session) == WaitForModification(old(session), MODIFICATION_POLLS)
    {
      var left := MODIFICATION_POLLS;
      while left > 0
        invariant WaitForModification(old(session), MODIFICATION_POLLS) == WaitForModification(session, left)
      {
        var answer := DescribeModification();
        if answer.Err? { return Err(ErrOther); }
        if answer.value.None? || ModificationDone(answer.value.value) { return Ok(()); }
        left := left - 1;
      }
      return Err(ErrOther);
    }

    method CheckState(env: Env, desiredGiB: Int32, options: DiskOptions) returns (r: Result<Int32, CloudError>)
      modifies this
      ensures (r, session) == CheckDesiredState(env, old(session), desiredGiB, options)
    {
      var answer := DescribeVolume();
      if answer.Err? { return Err(FromReadError(answer.error)); }
      var volume := answer.value;
      r := if NeedsModification(env, volume, desiredGiB, options) then Err(ErrOther) else Ok(volume.size);
    }

    method WaitAndCheck(env: Env, desiredGiB: Int32, options: DiskOptions) returns (r: Result<Int32, CloudError>)
      modifies this
      ensures Outcome(r, session, options) == WaitThenCheck(env, old(session), desiredGiB, options)
    {
      var waited := WaitForVolumeModification();
      if waited.Err? { return Err(waited.error); }
      r := CheckState(env, desiredGiB, options);
    }

    /** Issue the modification, unless the volume already shows the options or is being optimized. */
    method Start(env: Env, volume: Volume, newSizeGiB: Int32, request: ModifyInput, options: DiskOptions)
      returns (r: Result<Int32, CloudError>)
      modifies this
      ensures Outcome(r, session, options) == StartModification(env, old(session), volume, newSizeGiB, request, options)
    {
      if !NeedsModification(env, volume, newSizeGiB, options) {
        r := WaitAndCheck(env, newSizeGiB, options);
        return;
      }
      var latest := DescribeModification();
      if latest.Err? || latest.value == Some(OPTIMIZING) { return Err(ErrOther); }
      var step := CallModify(session, request);
      session := step.1;
      if step.0.Err? { return Err(FromRefusal(step.0.error)); }
      if ModificationDone(step.0.value) {
        r := CheckState(env, newSizeGiB, options);
      } else {
        r := WaitAndCheck(env, newSizeGiB, options);
      }
    }
  }

  /** The caller's options, which the operation overwrites with the capped IOPS. */
  class OptionsRef {
    var value: DiskOptions

    constructor (value: DiskOptions)
      ensures this.value == value
    {
      this.value := value;
    }
  }

  method ResizeOrModifyDisk(env: Env, ec2: Client, newSizeBytes: Int64, options: OptionsRef)
    returns (r: Result<Int32, CloudError>)
    modifies ec2, options
    ensures Outcome(r, ec2.session, options.value)
         == ResizeOrModify(env, old(ec2.session), newSizeBytes, old(options.value))
  {
    var rounded := RoundUpGiB(newSizeBytes);
    if rounded.Err? { return Err(ErrOther); }
    var newSizeGiB := rounded.value;
    var described := ec2.DescribeVolume();
    if described.Err? { return Err(FromReadError(described.error)); }
    var volume := described.value;

    var latest := ec2.DescribeModification();
    if latest.Err? { return Err(ErrOther); }
    if latest.value == Some(MODIFYING) {
      r := ec2.WaitAndCheck(env, newSizeGiB, options.value);
      return;
    }
    if options.value.iops > 0 && options.value.iopsPerGB > 0 { return Err(ErrOther); }

    var fromTags := IncreaseFromTags(env, volume.tags);
    if fromTags.Err? { return Err(fromTags.error); }
    var sizeToUse := TargetSize(volume, newSizeBytes, newSizeGiB);
    var iopsForModify := IopsForModify(options.value, sizeToUse, fromTags.value);
    var capped := options.value;
    if iopsForModify != 0 {
      capped := capped.(iops := CapIops(sizeToUse, iopsForModify, env.limits(TargetType(volume, capped)), true));
    }
    var request := ModifyInputFor(volume, newSizeBytes, newSizeGiB, options.value, fromTags.value, capped);
    options.value := capped;
    r := ec2.Start(env, volume, newSizeGiB, request, capped);
  }
}
