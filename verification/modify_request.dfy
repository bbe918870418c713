/** Modify-volume requests and their merge, pkg/driver/controller_modify_volume.go. */
module ModifyRequest {

  import opened Base
  import opened Sizes
  import opened Coalescer

  datatype DiskOptions = DiskOptions(
    volumeType: string,
    iops: Int32,
    throughput: Int32,
    iopsPerGB: Int32,
    allowIopsIncreaseOnResize: bool)

  /**
   * None is a nil map or slice, which reflect.DeepEqual tells apart from an empty one. With that,
   * DeepEqual on tag options is equality of values.
   */
  datatype TagOptions = TagOptions(toAdd: Option<map<string, string>>, toDelete: Option<seq<string>>)

  datatype Request = Request(newSize: Int64, disk: DiskOptions, tags: TagOptions)

  const NO_OPTIONS := DiskOptions("", 0, 0, 0, false)
  const NO_TAGS := TagOptions(None, None)
  const ZERO := Request(0, NO_OPTIONS, NO_TAGS)

  predicate HasTags(t: TagOptions) {
    (t.toAdd.Some? && |t.toAdd.value| > 0) || (t.toDelete.Some? && |t.toDelete.value| > 0)
  }

  function MergeSize(input: Request, existing: Request): Merged<Request> {
    if input.newSize == 0 then Merged(existing, None)
    else if existing.newSize != 0 && input.newSize != existing.newSize then
      Merged(existing, Some("different size was requested by a previous request"))
    else Merged(existing.(newSize := input.newSize), None)
  }

  function MergeIops(input: DiskOptions, existing: DiskOptions): Merged<DiskOptions> {
    if input.iops == 0 then Merged(existing, None)
    else if existing.iops != 0 && input.iops != existing.iops then
      Merged(existing, Some("different IOPS was requested by a previous request"))
    else Merged(existing.(iops := input.iops), None)
  }

  function MergeThroughput(input: DiskOptions, existing: DiskOptions): Merged<DiskOptions> {
    if input.throughput == 0 then Merged(existing, None)
    else if existing.throughput != 0 && input.throughput != existing.throughput then
      Merged(existing, Some("different throughput was requested by a previous request"))
    else Merged(existing.(throughput := input.throughput), None)
  }

  function MergeType(input: DiskOptions, existing: DiskOptions): Merged<DiskOptions> {
    if input.volumeType == "" then Merged(existing, None)
    else if existing.volumeType != "" && input.volumeType != existing.volumeType then
      Merged(existing, Some("different volume type was requested by a previous request"))
    else Merged(existing.(volumeType := input.volumeType), None)
  }

  function MergeDisk(input: DiskOptions, existing: DiskOptions): Merged<DiskOptions> {
    var a := MergeIops(input, existing);
    if a.err.Some? then a else
    var b := MergeThroughput(input, a.value);
    if b.err.Some? then b else MergeType(input, b.value)
  }

  function MergeTags(input: TagOptions, existing: TagOptions): Merged<TagOptions> {
    if !HasTags(input) then Merged(existing, None)
    else if HasTags(existing) && input != existing then
      Merged(existing, Some("different tags were requested by a previous request"))
    else Merged(input, None)
  }

  /** Field by field, stopping at the first conflict with what has been copied so far. */
  function Merge(input: Request, existing: Request): Merged<Request> {
    var a := MergeSize(input, existing);
    if a.err.Some? then a else
    var b := MergeDisk(input.disk, a.value.disk);
    if b.err.Some? then Merged(a.value.(disk := b.value), b.err) else
    var c := MergeTags(input.tags, existing.tags);
    Merged(a.value.(disk := b.value, tags := c.value), c.err)
  }

  /** `m` grants everything `r` asks for, the fields `r` leaves unset aside. */
  predicate Grants(m: Request, r: Request) {
    && (r.newSize != 0 ==> m.newSize == r.newSize)
    && (r.disk.iops != 0 ==> m.disk.iops == r.disk.iops)
    && (r.disk.throughput != 0 ==> m.disk.throughput == r.disk.throughput)
    && (r.disk.volumeType != "" ==> m.disk.volumeType == r.disk.volumeType)
    && (HasTags(r.tags) ==> m.tags == r.tags)
  }

  /** No field that both requests set differs. */
  predicate Compatible(a: Request, b: Request) {
    && (a.newSize != 0 && b.newSize != 0 ==> a.newSize == b.newSize)
    && (a.disk.iops != 0 && b.disk.iops != 0 ==> a.disk.iops == b.disk.iops)
    && (a.disk.throughput != 0 && b.disk.throughput != 0 ==> a.disk.throughput == b.disk.throughput)
    && (a.disk.volumeType != "" && b.disk.volumeType != "" ==> a.disk.volumeType == b.disk.volumeType)
    && (HasTags(a.tags) && HasTags(b.tags) ==> a.tags == b.tags)
  }

  /** `input` laid over `existing`: its set fields win, except the two the merge never copies. */
  function Overlay(input: Request, existing: Request): Request {
    Request(
      if input.newSize != 0 then input.newSize else existing.newSize,
      OverlayDisk(input.disk, existing.disk),
      if HasTags(input.tags) then input.tags else existing.tags)
  }

  function OverlayDisk(input: DiskOptions, existing: DiskOptions): DiskOptions {
    DiskOptions(
      if input.volumeType != "" then input.volumeType else existing.volumeType,
      if input.iops != 0 then input.iops else existing.iops,
      if input.throughput != 0 then input.throughput else existing.throughput,
      existing.iopsPerGB,
      existing.allowIopsIncreaseOnResize)
  }

  predicate CompatibleDisks(a: DiskOptions, b: DiskOptions) {
    && (a.iops != 0 && b.iops != 0 ==> a.iops == b.iops)
    && (a.throughput != 0 && b.throughput != 0 ==> a.throughput == b.throughput)
    && (a.volumeType != "" && b.volumeType != "" ==> a.volumeType == b.volumeType)
  }

  lemma MergeDiskMeetsSpec(input: DiskOptions, existing: DiskOptions)
    ensures MergeDisk(input, existing).err.None? <==> CompatibleDisks(input, existing)
    ensures CompatibleDisks(input, existing) ==> MergeDisk(input, existing).value == OverlayDisk(input, existing)
  {
  }

  /** What the batch theorems need of a merge: it fails on conflicts only, and otherwise overlays. */
  ghost predicate MeetsSpec(merge: (Request, Request) -> Merged<Request>) {
    forall input, existing ::
      && (merge(input, existing).err.None? <==> Compatible(input, existing))
      && (Compatible(input, existing) ==> merge(input, existing).value == Overlay(input, existing))
  }

  lemma MergePairMeetsSpec(input: Request, existing: Request)
    ensures Merge(input, existing).err.None? <==> Compatible(input, existing)
    ensures Compatible(input, existing) ==> Merge(input, existing).value == Overlay(input, existing)
  {
    var a := MergeSize(input, existing);
    var b := MergeDisk(input.disk, existing.disk);
    var c := MergeTags(input.tags, existing.tags);
    MergeDiskMeetsSpec(input.disk, existing.disk);
    assert a.value.disk == existing.disk && a.value.tags == existing.tags;
    assert Compatible(input, existing) <==> a.err.None? && b.err.None? && c.err.None?;
    if Compatible(input, existing) {
      assert Merge(input, existing) == Merged(Request(a.value.newSize, b.value, c.value), None);
    }
  }

  lemma MergeMeetsSpec()
    ensures MeetsSpec(Merge)
  {
    forall input, existing
      ensures Merge(input, existing).err.None? <==> Compatible(input, existing)
      ensures Compatible(input, existing) ==> Merge(input, existing).value == Overlay(input, existing)
    {
      MergePairMeetsSpec(input, existing);
    }
  }

  /** The merge succeeds exactly when some request grants both, and then its result does. */
  lemma MergeSucceedsIffJointlyGrantable(input: Request, existing: Request)
    ensures Merge(input, existing).err.None? <==> exists m :: Grants(m, input) && Grants(m, existing)
    ensures var m := Merge(input, existing);
            m.err.None? ==> Grants(m.value, input) && Grants(m.value, existing)
  {
    MergeMeetsSpec();
    if Compatible(input, existing) {
      assert Grants(Overlay(input, existing), input) && Grants(Overlay(input, existing), existing);
    }
  }

  /** A conflict does not leave the existing request alone: the fields before it are already copied. */
  lemma FailedMergeIsHalfUpdated()
    ensures exists input, existing ::
              var m := Merge(input, existing); m.err.Some? && m.value != existing && !Grants(m.value, input)
  {
    var input := ZERO.(newSize := GIB, disk := NO_OPTIONS.(iops := 3000));
    var existing := ZERO.(disk := NO_OPTIONS.(iops := 4000));
    assert Merge(input, existing).value.newSize == GIB;
  }

  // ----- Folding a whole batch -----

  /** Every field of `m` that is set was set to that value by some request of the batch. */
  ghost predicate SetBySome(m: Request, rs: seq<Request>) {
    && (m.newSize != 0 ==> exists i :: 0 <= i < |rs| && rs[i].newSize == m.newSize)
    && (m.disk.iops != 0 ==> exists i :: 0 <= i < |rs| && rs[i].disk.iops == m.disk.iops)
    && (m.disk.throughput != 0 ==> exists i :: 0 <= i < |rs| && rs[i].disk.throughput == m.disk.throughput)
    && (m.disk.volumeType != "" ==> exists i :: 0 <= i < |rs| && rs[i].disk.volumeType == m.disk.volumeType)
    && (HasTags(m.tags) ==> exists i :: 0 <= i < |rs| && rs[i].tags == m.tags)
  }

  lemma SetBySomeGrows(m: Request, rs: seq<Request>, r: Request)
    requires SetBySome(m, rs)
    ensures SetBySome(Overlay(r, m), rs + [r])
  {
    var all := rs + [r];
    assert all[|rs|] == r;
    assert forall i :: 0 <= i < |rs| ==> all[i] == rs[i];
  }

  lemma OverlayGrants(m: Request, r: Request, earlier: Request)
    requires Grants(m, earlier) && Compatible(r, m)
    ensures Grants(Overlay(r, m), earlier) && Grants(Overlay(r, m), r)
  {
  }

  /** The fold of accepted requests grants each of them and sets nothing that none of them asked for. */
  lemma {:induction false} FoldGrantsExactly(merge: (Request, Request) -> Merged<Request>, rs: seq<Request>)
    requires MeetsSpec(merge)
    requires rs != [] && AllMerged(merge, rs)
    ensures forall i :: 0 <= i < |rs| ==> Grants(Fold(merge, rs), rs[i])
    ensures SetBySome(Fold(merge, rs), rs)
    ensures Fold(merge, rs).disk.iopsPerGB == rs[0].disk.iopsPerGB
    ensures Fold(merge, rs).disk.allowIopsIncreaseOnResize == rs[0].disk.allowIopsIncreaseOnResize
  {
    var last := |rs| - 1;
    if last > 0 {
      var prefix := rs[..last];
      var m := Fold(merge, prefix);
      FoldGrantsExactly(merge, prefix);
      assert Fold(merge, rs) == Overlay(rs[last], m);
      SetBySomeGrows(m, prefix, rs[last]);
      assert prefix + [rs[last]] == rs;
      forall i | 0 <= i < |rs| ensures Grants(Fold(merge, rs), rs[i]) {
        OverlayGrants(m, rs[last], if i < last then prefix[i] else prefix[0]);
      }
    }
  }

  predicate PairwiseCompatible(rs: seq<Request>) {
    forall i, j :: 0 <= i < |rs| && 0 <= j < |rs| ==> Compatible(rs[i], rs[j])
  }

  lemma GrantedTogether(m: Request, a: Request, b: Request)
    requires Grants(m, a) && Grants(m, b)
    ensures Compatible(a, b)
  {
  }

  lemma {:induction false} PairwiseCompatibleAreAccepted(
    merge: (Request, Request) -> Merged<Request>, rs: seq<Request>)
    requires MeetsSpec(merge)
    requires rs != [] && PairwiseCompatible(rs)
    ensures AllMerged(merge, rs)
  {
    var last := |rs| - 1;
    if last > 0 {
      var prefix := rs[..last];
      PairwiseCompatibleAreAccepted(merge, prefix);
      FoldGrantsExactly(merge, prefix);
      CompatibleWithFold(Fold(merge, prefix), prefix, rs[last]);
    }
  }

  /** A batch is accepted as a whole exactly when no two of its requests conflict. */
  lemma AcceptedIffPairwiseCompatible(merge: (Request, Request) -> Merged<Request>, rs: seq<Request>)
    requires MeetsSpec(merge) && rs != []
    ensures AllMerged(merge, rs) <==> PairwiseCompatible(rs)
  {
    if PairwiseCompatible(rs) { PairwiseCompatibleAreAccepted(merge, rs); }
    if AllMerged(merge, rs) {
      FoldGrantsExactly(merge, rs);
      forall i, j | 0 <= i < |rs| && 0 <= j < |rs| ensures Compatible(rs[i], rs[j]) {
        GrantedTogether(Fold(merge, rs), rs[i], rs[j]);
      }
    }
  }

  lemma CompatibleWithFold(m: Request, rs: seq<Request>, r: Request)
    requires SetBySome(m, rs)
    requires forall i :: 0 <= i < |rs| ==> Compatible(r, rs[i])
    ensures Compatible(r, m)
  {
  }

  /** Equal in the five fields the merge looks at; empty and absent tags count as the same. */
  predicate SameGrant(a: Request, b: Request) {
    && a.newSize == b.newSize
    && a.disk.iops == b.disk.iops
    && a.disk.throughput == b.disk.throughput
    && a.disk.volumeType == b.disk.volumeType
    && (HasTags(a.tags) || HasTags(b.tags) ==> a.tags == b.tags)
  }

  lemma SameGrantFromSameRequests(a: Request, rs: seq<Request>, b: Request, ts: seq<Request>)
    requires SetBySome(a, rs) && forall i :: 0 <= i < |rs| ==> Grants(a, rs[i])
    requires SetBySome(b, ts) && forall i :: 0 <= i < |ts| ==> Grants(b, ts[i])
    requires forall r :: r in rs <==> r in ts
    ensures SameGrant(a, b)
  {
    assert forall i :: 0 <= i < |rs| ==> rs[i] in ts;
    assert forall i :: 0 <= i < |ts| ==> ts[i] in rs;
    assert forall r :: r in rs ==> Grants(b, r);
    assert forall r :: r in ts ==> Grants(a, r);
  }

  /**
   * Arrival order does not matter: if one ordering of a batch is accepted so is every reordering, and
   * both fold to the same size, IOPS, throughput, type and tags.
   */
  lemma MergeOrderIrrelevant(merge: (Request, Request) -> Merged<Request>, rs: seq<Request>, ts: seq<Request>)
    requires MeetsSpec(merge)
    requires rs != [] && multiset(rs) == multiset(ts)
    requires AllMerged(merge, rs)
    ensures ts != [] && AllMerged(merge, ts)
    ensures SameGrant(Fold(merge, rs), Fold(merge, ts))
  {
    assert |multiset(ts)| == |multiset(rs)|;
    assert forall r :: r in rs <==> r in multiset(rs);
    assert forall r :: r in ts <==> r in multiset(ts);
    AcceptedIffPairwiseCompatible(merge, rs);
    forall i, j | 0 <= i < |ts| && 0 <= j < |ts| ensures Compatible(ts[i], ts[j]) {
      assert ts[i] in rs && ts[j] in rs;
    }
    AcceptedIffPairwiseCompatible(merge, ts);
    FoldGrantsExactly(merge, rs);
    FoldGrantsExactly(merge, ts);
    SameGrantFromSameRequests(Fold(merge, rs), rs, Fold(merge, ts), ts);
  }

  /** Order irrelevance for the driver's own merge. */
  lemma ModifyRequestsMergeInAnyOrder(rs: seq<Request>, ts: seq<Request>)
    requires rs != [] && multiset(rs) == multiset(ts) && PairwiseCompatible(rs)
    ensures ts != [] && AllMerged(Merge, rs) && AllMerged(Merge, ts)
    ensures SameGrant(Fold(Merge, rs), Fold(Merge, ts))
  {
    MergeMeetsSpec();
    AcceptedIffPairwiseCompatible(Merge, rs);
    MergeOrderIrrelevant(Merge, rs, ts);
  }

  /** The ratio field is the exception: it is the first arrival's, so order decides whether it survives. */
  lemma RatioDependsOnOrder(merge: (Request, Request) -> Merged<Request>)
    requires MeetsSpec(merge)
    ensures exists a, b ::
              && AllMerged(merge, [a, b]) && AllMerged(merge, [b, a])
              && Fold(merge, [a, b]).disk.iopsPerGB != Fold(merge, [b, a]).disk.iopsPerGB
  {
    var a := ZERO.(disk := NO_OPTIONS.(iopsPerGB := 50));
    var b := ZERO.(newSize := GIB);
    AcceptedIffPairwiseCompatible(merge, [a, b]);
    AcceptedIffPairwiseCompatible(merge, [b, a]);
    FoldGrantsExactly(merge, [a, b]);
    FoldGrantsExactly(merge, [b, a]);
  }
}
