/**
 * What becomes of a ratio of IOPS to size that a modify request asks for.
 *
 * The merge keeps the ratio and the increase flag of the first request of a batch only, but both are also
 * written into the volume's tags, where ResizeOrModifyDisk finds them. pkg/driver/controller_modify_volume.go
 * and pkg/cloud/cloud.go.
 */
module ModifyRatio {

  import opened Base
  import opened Sizes
  import opened Coalescer
  import opened ModifyRequest
  import opened VolumeModification
  import opened ModifyPipeline
  import ModifyParameters

  /** The ratio by which the IOPS to ask for are worked out, if they are worked out by one. */
  function RatioInForce(disk: DiskOptions, fromTags: (bool, Int32)): Option<Int32> {
    if disk.iops != 0 || !(disk.allowIopsIncreaseOnResize || fromTags.0) then None
    else if disk.iopsPerGB != 0 then Some(disk.iopsPerGB)
    else if fromTags.1 > 0 then Some(fromTags.1)
    else None
  }

  lemma RatioDecidesIops(disk: DiskOptions, size: Int32, fromTags: (bool, Int32))
    ensures IopsForModify(disk, size, fromTags)
         == var ratio := RatioInForce(disk, fromTags); if ratio.Some? then Wrap32(size * ratio.value) else disk.iops
  {
  }

  // ----- What a batch makes of a ratio -----

  /** Executing the batch turns to the disk at all. */
  ghost predicate BatchChangesDisk(rs: seq<Request>)
    requires rs != []
  {
    rs[0].disk.iopsPerGB != 0 || exists i :: 0 <= i < |rs| && SetsValue(rs[i])
  }

  lemma BatchChangesDiskIff(merge: (Request, Request) -> Merged<Request>, rs: seq<Request>)
    requires MeetsSpec(merge) && rs != [] && AllMerged(merge, rs)
    ensures ChangesDisk(Fold(merge, rs)) <==> BatchChangesDisk(rs)
  {
    FoldGrantsExactly(merge, rs);
    if i :| 0 <= i < |rs| && SetsValue(rs[i]) { assert Grants(Fold(merge, rs), rs[i]); }
  }

  /**
   * The ratio is in force: nobody asks for IOPS outright, an increase is allowed by the first request or the
   * tags, and the ratio is the first request's, or the first request has none and the tags have it.
   */
  ghost predicate BatchUsesRatio(rs: seq<Request>, fromTags: (bool, Int32), ratio: Int32)
    requires rs != []
  {
    && (forall i :: 0 <= i < |rs| ==> rs[i].disk.iops == 0)
    && (rs[0].disk.allowIopsIncreaseOnResize || fromTags.0)
    && (rs[0].disk.iopsPerGB == ratio || (rs[0].disk.iopsPerGB == 0 && fromTags.1 == ratio > 0))
  }

  lemma BatchUsesRatioIff(
    merge: (Request, Request) -> Merged<Request>, rs: seq<Request>, fromTags: (bool, Int32), ratio: Int32)
    requires MeetsSpec(merge) && rs != [] && AllMerged(merge, rs) && ratio != 0
    ensures RatioInForce(Fold(merge, rs).disk, fromTags) == Some(ratio) <==> BatchUsesRatio(rs, fromTags, ratio)
  {
    FoldGrantsExactly(merge, rs);
    var m := Fold(merge, rs);
    if m.disk.iops == 0 {
      forall i | 0 <= i < |rs| ensures rs[i].disk.iops == 0 { assert Grants(m, rs[i]); }
    }
  }

  // ----- With the tags just created in sight -----

  predicate UniqueKeys(tags: seq<Tag>) {
    forall i, j :: 0 <= i < j < |tags| ==> tags[i].key != tags[j].key
  }

  /** The value of a key that occurs at most once. */
  lemma {:induction false} TagsTell(env: Env, tags: seq<Tag>, value: string)
    requires UniqueKeys(tags) && env.iopsPerGBKey != env.allowIncreaseKey && IncreaseFromTags(env, tags).Ok?
    ensures Tag(env.iopsPerGBKey, value) in tags ==> env.parseInt(value) == Some(IncreaseFromTags(env, tags).value.1)
    ensures Tag(env.allowIncreaseKey, value) in tags ==> env.parseBool(value) == Some(IncreaseFromTags(env, tags).value.0)
  {
    if tags != [] {
      var last := |tags| - 1;
      TagsTell(env, tags[..last], value);
      assert forall tag :: tag in tags ==> tag == tags[last] || tag in tags[..last];
    }
  }

  /** Both parts of the driver read numbers alike and agree on the tag keys, and "true" is true. */
  ghost predicate SameDriver(env: Env, parse: ModifyParameters.ParseEnv) {
    && env.iopsPerGBKey == ModifyParameters.RatioTag(parse)
    && env.allowIncreaseKey == ModifyParameters.AllowIncreaseTag(parse)
    && (forall value :: env.parseInt(value) == parse.parseInt(value))
    && env.parseBool("true") == Some(true)
  }

  /** The volume carries all of these tags. */
  ghost predicate ShowsTags(volume: Volume, tags: TagOptions) {
    && UniqueKeys(volume.tags)
    && (tags.toAdd.Some? ==> forall key :: key in tags.toAdd.value ==> Tag(key, tags.toAdd.value[key]) in volume.tags)
  }

  ghost predicate FromSources(parse: ModifyParameters.ParseEnv, sources: seq<ModifyParameters.Source>, rs: seq<Request>) {
    |sources| == |rs| && forall i :: 0 <= i < |rs| ==> ModifyParameters.ComesFrom(parse, sources[i], rs[i])
  }

  /** The ratio field and the increase flag of a request are what its own tags say. */
  lemma FieldsAreInTags(parse: ModifyParameters.ParseEnv, source: ModifyParameters.Source, r: Request)
    requires ModifyParameters.ComesFrom(parse, source, r)
    ensures !ModifyParameters.SetsRatio(source) ==> r.disk.iopsPerGB == 0
    ensures ModifyParameters.SetsRatio(source) ==>
              && HasTags(r.tags) && ModifyParameters.CarriesRatio(parse, r.tags, source.params[ModifyParameters.Ratio])
              && parse.parseInt(source.params[ModifyParameters.Ratio]) == Some(r.disk.iopsPerGB)
    ensures r.disk.allowIopsIncreaseOnResize ==>
              && HasTags(r.tags) && r.tags.toAdd.Some?
              && ModifyParameters.AllowIncreaseTag(parse) in r.tags.toAdd.value
              && r.tags.toAdd.value[ModifyParameters.AllowIncreaseTag(parse)] == "true"
  {
    ModifyParameters.RatioTagIsOwn(parse, source, r);
    if ModifyParameters.SetsRatio(source) {
      assert !ModifyParameters.BadParameter(parse, ModifyParameters.Ratio, source.params[ModifyParameters.Ratio]);
    }
  }

  /** The first request's ratio field is the batch's ratio or none, and its flag is in the merged tags. */
  lemma FirstAgreesWithTags(
    parse: ModifyParameters.ParseEnv, sources: seq<ModifyParameters.Source>, rs: seq<Request>, i: nat)
    requires rs != [] && AllMerged(Merge, rs) && FromSources(parse, sources, rs)
    requires i < |rs| && ModifyParameters.SetsRatio(sources[i])
    ensures var tags := Fold(Merge, rs).tags;
            && ModifyParameters.CarriesRatio(parse, tags, sources[i].params[ModifyParameters.Ratio])
            && parse.parseInt(sources[i].params[ModifyParameters.Ratio]) == Some(rs[i].disk.iopsPerGB)
            && rs[0].disk.iopsPerGB == (if ModifyParameters.SetsRatio(sources[0]) then rs[i].disk.iopsPerGB else 0)
            && (rs[0].disk.allowIopsIncreaseOnResize ==>
                  && ModifyParameters.AllowIncreaseTag(parse) in tags.toAdd.value
                  && tags.toAdd.value[ModifyParameters.AllowIncreaseTag(parse)] == "true")
  {
    MergeMeetsSpec();
    FoldGrantsExactly(Merge, rs);
    FieldsAreInTags(parse, sources[i], rs[i]);
    FieldsAreInTags(parse, sources[0], rs[0]);
    assert Grants(Fold(Merge, rs), rs[i]) && Grants(Fold(Merge, rs), rs[0]);
  }

  /**
   * If the volume, as first read, shows the tags just created, then it does not depend on the order of arrival
   * whether a positive ratio is in force: exactly when nobody asks for IOPS outright and the tags allow an
   * increase. A negative ratio counts only if the first request set it.
   */
  lemma RatioInForceWithTagsIff(
    env: Env, parse: ModifyParameters.ParseEnv, sources: seq<ModifyParameters.Source>, rs: seq<Request>, i: nat,
    first: Volume)
    requires SameDriver(env, parse) && rs != [] && AllMerged(Merge, rs) && FromSources(parse, sources, rs)
    requires i < |rs| && ModifyParameters.SetsRatio(sources[i]) && rs[i].disk.iopsPerGB != 0
    requires ShowsTags(first, Fold(Merge, rs).tags) && IncreaseFromTags(env, first.tags).Ok?
    ensures var fromTags, ratio := IncreaseFromTags(env, first.tags).value, rs[i].disk.iopsPerGB;
            && fromTags.1 == ratio
            && (RatioInForce(Fold(Merge, rs).disk, fromTags) == Some(ratio) <==>
                  && (forall j :: 0 <= j < |rs| ==> rs[j].disk.iops == 0)
                  && fromTags.0
                  && (ratio > 0 || ModifyParameters.SetsRatio(sources[0])))
  {
    FirstAgreesWithTags(parse, sources, rs, i);
    ModifyParameters.OwnTagsAreReserved(parse);
    TagsTell(env, first.tags, sources[i].params[ModifyParameters.Ratio]);
    TagsTell(env, first.tags, "true");
    MergeMeetsSpec();
    BatchUsesRatioIff(Merge, rs, IncreaseFromTags(env, first.tags).value, rs[i].disk.iopsPerGB);
  }

  // ----- What a successful caller may conclude -----

  /**
   * The calls from `n` on read the volume first, found it at rest, took this ratio as a basis, and last read a
   * volume that has the IOPS which follow from it, capped.
   */
  ghost predicate ServesRatio(env: Env, log: seq<Call>, n: nat, merged: Request, ratio: Int32) {
    && |log| > n + 1 && RoundUpGiB(merged.newSize).Ok?
    && log[n].ReadVolume? && log[n].volume.Ok?
    && log[n + 1].ReadModification? && log[n + 1].modification.Ok? && log[n + 1].modification.value != Some(MODIFYING)
    && log[|log| - 1].ReadVolume? && log[|log| - 1].volume.Ok?
    && var first, gib := log[n].volume.value, RoundUpGiB(merged.newSize).value;
       && IncreaseFromTags(env, first.tags).Ok?
       && RatioInForce(merged.disk, IncreaseFromTags(env, first.tags).value) == Some(ratio)
       && var wanted := Wrap32(TargetSize(first, merged.newSize, gib) * ratio);
          wanted != 0 ==>
            log[|log| - 1].volume.value.iops == Some(CappedFor(env, first, merged.newSize, gib, merged.disk, wanted))
  }

  /** The first two answers: a volume at rest whose tags can be read and leave the ratio in force. */
  ghost predicate FirstReadsUseRatio(env: Env, log: seq<Call>, n: nat, rs: seq<Request>, ratio: Int32)
    requires rs != []
  {
    && |log| > n + 1
    && log[n].ReadVolume? && log[n].volume.Ok?
    && log[n + 1].ReadModification? && log[n + 1].modification.Ok? && log[n + 1].modification.value != Some(MODIFYING)
    && IncreaseFromTags(env, log[n].volume.value.tags).Ok?
    && BatchUsesRatio(rs, IncreaseFromTags(env, log[n].volume.value.tags).value, ratio)
  }

  lemma ShownIsServed(env: Env, log: seq<Call>, n: nat, merged: Request, r: Request, ratio: Int32)
    requires EndsShowing(env, log, n, merged, r)
    ensures ServesRatio(env, log, n, merged, ratio) <==>
              && log[n + 1].modification.value != Some(MODIFYING)
              && IncreaseFromTags(env, log[n].volume.value.tags).Ok?
              && RatioInForce(merged.disk, IncreaseFromTags(env, log[n].volume.value.tags).value) == Some(ratio)
  {
    var first, gib := log[n].volume.value, RoundUpGiB(merged.newSize).value;
    if IncreaseFromTags(env, first.tags).Ok? {
      RatioDecidesIops(merged.disk, TargetSize(first, merged.newSize, gib), IncreaseFromTags(env, first.tags).value);
    }
  }

  /**
   * In every run, a successful caller that asks for a ratio is served, its ratio applied and shown, exactly when
   * the batch it shared turned to the disk, EC2 first showed a volume at rest, and the ratio was in force.
   */
  lemma RatioCallerIsServedIff(env: Env, es: seq<Event<Request, World>>, d: nat) returns (k: nat)
    requires Run(ModifyConfig(env), es).Some? && d < |Run(ModifyConfig(env), es).value.deliveries|
    requires Run(ModifyConfig(env), es).value.deliveries[d].result.Ok?
    requires var s := Run(ModifyConfig(env), es).value;
             s.deliveries[d].channel in s.arrivals && s.arrivals[s.deliveries[d].channel].input.disk.iopsPerGB != 0
    ensures var s := Run(ModifyConfig(env), es).value;
            var got := s.deliveries[d];
            && got.source.FromExecution? && got.source.index < |s.executions|
            && k < |es| && es[k].Finish? && es[k].index == got.source.index
            && var x := s.executions[got.source.index];
               && x.callers != []
               && ServedIff(env, es[k].world, x.input, Inputs(x.callers), s.arrivals[got.channel].input.disk.iopsPerGB)
  {
    k := SuccessfulCallerIsFulfilled(env, es, d);
    var c := ModifyConfig(env);
    var s := Run(c, es).value;
    var got := s.deliveries[d];
    SuccessComesFromSharedExecution(c, es, d);
    var x := s.executions[got.source.index];
    MergeMeetsSpec();
    ServedIffHolds(env, c.merge, es[k].world, x.input, Inputs(x.callers), got.result, s.arrivals[got.channel].input);
  }

  ghost predicate ServedIff(env: Env, world: World, merged: Request, rs: seq<Request>, ratio: Int32)
    requires rs != []
  {
    var log, n := ExecuteModify(env, Session(world, []), merged).1.log, |TagCalls(merged.tags)|;
    ServesRatio(env, log, n, merged, ratio) <==> BatchChangesDisk(rs) && FirstReadsUseRatio(env, log, n, rs, ratio)
  }

  lemma ServedIffHolds(
    env: Env, merge: (Request, Request) -> Merged<Request>, world: World, merged: Request, rs: seq<Request>,
    result: Result<Int32, string>, own: Request)
    requires MeetsSpec(merge) && rs != [] && AllMerged(merge, rs) && merged == Fold(merge, rs)
    requires CarriedOut(env, world, merged, result, own) && own.disk.iopsPerGB != 0
    ensures ServedIff(env, world, merged, rs, own.disk.iopsPerGB)
  {
    var log, n := ExecuteModify(env, Session(world, []), merged).1.log, |TagCalls(merged.tags)|;
    var ratio := own.disk.iopsPerGB;
    BatchChangesDiskIff(merge, rs);
    if ChangesDisk(merged) {
      assert [] + TagCalls(merged.tags) == TagCalls(merged.tags);
      assert EndsShowing(env, log, n, merged, own);
      ShownIsServed(env, log, n, merged, own, ratio);
      if IncreaseFromTags(env, log[n].volume.value.tags).Ok? {
        BatchUsesRatioIff(merge, rs, IncreaseFromTags(env, log[n].volume.value.tags).value, ratio);
      }
    } else {
      TagsAreCalled(Session(world, []), merged.tags);
    }
  }

  // ----- A ratio that is lost -----

  /** A caller that asks for nothing is joined by one that asks for a ratio. */
  function JoinedCalls(key: string, own: Request, world: World): seq<Event<Request, World>> {
    [Input(key, 0, ZERO), Input(key, 1, own), Timer(key), Finish(0, world), Send(0), Send(0)]
  }

  /** Asks for a ratio and its tag and for nothing else. */
  predicate OnlyRatio(own: Request) {
    own.disk.iopsPerGB != 0 && !SetsValue(own) && Adds(own.tags) && !Deletes(own.tags)
  }

  lemma RatioIsDropped(own: Request)
    requires OnlyRatio(own)
    ensures Merge(own, ZERO) == Merged(ZERO.(tags := own.tags), None)
  {
  }

  lemma DroppedRatioExecutes(env: Env, world: World, own: Request)
    requires OnlyRatio(own) && !world.refusesCreateTags
    ensures ExecuteModify(env, Session(world, []), ZERO.(tags := own.tags))
         == (Ok(0), Session(world, [CreateTags(own.tags.toAdd.value, false)]))
  {
    assert [] + [CreateTags(own.tags.toAdd.value, false)] == [CreateTags(own.tags.toAdd.value, false)];
  }

  lemma RunOneMore<I, W, R>(c: Config<I, W, R>, es: seq<Event<I, W>>, e: Event<I, W>)
    requires Run(c, es).Some? && Enabled(Run(c, es).value, e)
    ensures Run(c, es + [e]) == Some(Step(c, Run(c, es).value, e))
  {
    assert (es + [e])[..|es|] == es;
  }

  /** After both inputs and the timer: one execution of the merged request. */
  lemma JoinedExecution(env: Env, key: string, own: Request, world: World)
    requires OnlyRatio(own)
    ensures var run := Run(ModifyConfig(env), JoinedCalls(key, own, world)[..3]);
            && run.Some? && run.value.deliveries == []
            && run.value.executions
               == [Execution(key, ZERO.(tags := own.tags), [Caller(0, ZERO), Caller(1, own)], None, 0)]
  {
    var c, es := ModifyConfig(env), JoinedCalls(key, own, world);
    RatioIsDropped(own);
    RunOneMore(c, [], es[0]);
    assert [] + [es[0]] == es[..1] && es[..1] + [es[1]] == es[..2] && es[..2] + [es[2]] == es[..3];
    RunOneMore(c, es[..1], es[1]);
    assert Run(c, es[..2]).value.pending[key] == Pending(ZERO.(tags := own.tags), [Caller(0, ZERO), Caller(1, own)]);
    RunOneMore(c, es[..2], es[2]);
  }

  /**
   * The second caller is told that its request succeeded although the execution made no call but the one that
   * creates its tags: the merge dropped its ratio, and nothing else turns to the disk.
   */
  lemma RatioMayBeLost(env: Env, key: string, own: Request, world: World)
    requires OnlyRatio(own) && !world.refusesCreateTags
    ensures var run := Run(ModifyConfig(env), JoinedCalls(key, own, world));
            && run.Some?
            && run.value.deliveries == [Delivery(0, Ok(0), FromExecution(0, 0)), Delivery(1, Ok(0), FromExecution(0, 1))]
            && |run.value.executions| == 1
            && ExecuteModify(env, Session(world, []), run.value.executions[0].input).1.log
               == [CreateTags(own.tags.toAdd.value, false)]
  {
    var c, es := ModifyConfig(env), JoinedCalls(key, own, world);
    JoinedExecution(env, key, own, world);
    DroppedRatioExecutes(env, world, own);
    RunOneMore(c, es[..3], es[3]);
    assert es[..3] + [es[3]] == es[..4] && es[..4] + [es[4]] == es[..5] && es[..5] + [es[5]] == es;
    RunOneMore(c, es[..4], es[4]);
    RunOneMore(c, es[..5], es[5]);
  }
}
