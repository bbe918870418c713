/**
 * Waiting for a volume to be attached or detached: WaitForAttachmentState of pkg/cloud/cloud.go.
 *
 * The wait is a bounded number of polls of EC2. `attachment` is declared outside the poll function and so
 * survives from one poll to the next; the theorems say what that can and cannot influence.
 */
module AttachmentWait {

  import opened Base

  const ATTACHED := "attached"
  const ATTACHING := "attaching"
  const DETACHED := "detached"

  /** The instance behind a HyperPod attachment's associated resource, which may not parse. */
  datatype Resource = NoResource | BadResource | ResourceOf(instance: string)

  /** `stuck`: the attach time is known and longer ago than the timeout for stuck attachments. */
  datatype Attachment = Attachment(
    instance: Option<string>,
    resource: Resource,
    state: string,
    device: Option<string>,
    card: Option<int>,
    stuck: bool)

  /** What one DescribeVolumes call showed. */
  datatype Poll =
    | NotFound
    | ReadFailed
    | Read(multiAttach: Option<bool>, attachments: seq<Attachment>)

  /** The arguments of the wait; `hyperPod` holds the plain instance ID if the node is a HyperPod node. */
  datatype Wanted = Wanted(
    state: string,
    instance: string,
    device: string,
    alreadyAssigned: bool,
    card: Option<int>,
    hyperPod: Option<string>)

  datatype Verdict = Done | Retry | Fail

  // ----- One poll -----

  predicate Matches(w: Wanted, a: Attachment) {
    if w.hyperPod.Some? then a.resource == ResourceOf(w.hyperPod.value)
    else a.instance == Some(w.instance)
  }

  /** The last attachment to the wanted instance; a resource that does not parse ends the scan. */
  function LastMatch(w: Wanted, attachments: seq<Attachment>): Result<Option<Attachment>, ()> {
    if attachments == [] then Ok(None)
    else
      var earlier := LastMatch(w, attachments[..|attachments| - 1]);
      var a := attachments[|attachments| - 1];
      if earlier.Err? then earlier
      else if w.hyperPod.Some? && a.resource.BadResource? then Err(())
      else if Matches(w, a) then Ok(Some(a))
      else earlier
  }

  function StateOf(found: Option<Attachment>): string {
    if found.None? || found.value.state == "" then DETACHED else found.value.state
  }

  /** The poll function, given the attachment left by earlier polls; it yields the one left for later ones. */
  function Verify(w: Wanted, carried: Option<Attachment>, poll: Poll): (Verdict, Option<Attachment>) {
    match poll
    case NotFound =>
      (if w.state == DETACHED then Done else if w.state == ATTACHED then Fail else Retry, carried)
    case ReadFailed => (Retry, carried)
    case Read(multiAttach, attachments) =>
      if multiAttach == Some(false) && |attachments| > 1 then (Fail, carried)
      else
        var scan := LastMatch(w, attachments);
        if scan.Err? then (Fail, carried)
        else
          var attachment := if scan.value.Some? then scan.value else carried;
          (Judge(w, attachment, StateOf(scan.value)),
           if StateOf(scan.value) == w.state == DETACHED then None else attachment)
  }

  function Judge(w: Wanted, attachment: Option<Attachment>, state: string): Verdict {
    var checked := attachment.Some? && w.state == ATTACHED && w.hyperPod.None?;
    if checked && attachment.value.device.Some? && state == ATTACHING && attachment.value.stuck then Fail
    else if checked && attachment.value.device.Some? && attachment.value.device.value != w.device then Retry
    else if checked && w.card.Some? && attachment.value.card != w.card then Retry
    else if w.state == ATTACHED && w.alreadyAssigned && state == DETACHED then Fail
    else if state == w.state then Done
    else Retry
  }

  // ----- The whole wait -----

  /** Success at the poll with this index, or failure: a poll failed or the polls ran out. */
  function Wait(w: Wanted, carried: Option<Attachment>, polls: seq<Poll>): Option<nat>
    decreases |polls|
  {
    if polls == [] then None
    else
      var (verdict, left) := Verify(w, carried, polls[0]);
      match verdict
      case Done => Some(0)
      case Fail => None
      case Retry =>
        var later := Wait(w, left, polls[1..]);
        if later.Some? then Some(later.value + 1) else None
  }

  method Scan(w: Wanted, attachments: seq<Attachment>) returns (found: Result<Option<Attachment>, ()>)
    ensures found == LastMatch(w, attachments)
  {
    var last: Option<Attachment> := None;
    for i := 0 to |attachments|
      invariant LastMatch(w, attachments[..i]) == Ok(last)
    {
      assert attachments[..i + 1][..i] == attachments[..i];
      var a := attachments[i];
      if w.hyperPod.Some? {
        if a.resource.BadResource? {
          ScanError(w, attachments, i + 1);
          return Err(());
        }
        if a.resource == ResourceOf(w.hyperPod.value) { last := Some(a); }
      } else if a.instance == Some(w.instance) {
        last := Some(a);
      }
    }
    assert attachments[..|attachments|] == attachments;
    return Ok(last);
  }

  lemma {:induction false} ScanError(w: Wanted, attachments: seq<Attachment>, i: nat)
    requires i <= |attachments| && LastMatch(w, attachments[..i]) == Err(())
    ensures LastMatch(w, attachments) == Err(())
  {
    if i == |attachments| {
      assert attachments[..i] == attachments;
    } else {
      assert attachments[..|attachments| - 1][..i] == attachments[..i];
      ScanError(w, attachments[..|attachments| - 1], i);
    }
  }

  /** The poll function, with the attachment it leaves for later polls. */
  method VerifyVolume(w: Wanted, carried: Option<Attachment>, poll: Poll) returns (verdict: Verdict, left: Option<Attachment>)
    ensures (verdict, left) == Verify(w, carried, poll)
  {
    left := carried;
    match poll {
      case NotFound => verdict := if w.state == DETACHED then Done else if w.state == ATTACHED then Fail else Retry;
      case ReadFailed => verdict := Retry;
      case Read(multiAttach, attachments) =>
        if multiAttach == Some(false) && |attachments| > 1 { return Fail, left; }
        var found := Scan(w, attachments);
        if found.Err? { return Fail, left; }
        if found.value.Some? { left := found.value; }
        var state := StateOf(found.value);
        verdict := Judge(w, left, state);
        if state == w.state == DETACHED { left := None; }
    }
  }

  method WaitForAttachmentState(w: Wanted, polls: seq<Poll>) returns (success: Option<nat>)
    ensures success == Wait(w, None, polls)
  {
    var attachment: Option<Attachment> := None;
    var i := 0;
    while i < |polls|
      invariant 0 <= i <= |polls|
      invariant var rest := Wait(w, attachment, polls[i..]);
                Wait(w, None, polls) == if rest.Some? then Some(rest.value + i) else None
    {
      assert polls[i..][0] == polls[i] && polls[i..][1..] == polls[i + 1..];
      var verdict, left := VerifyVolume(w, attachment, polls[i]);
      if verdict == Done { return Some(i); }
      if verdict == Fail { return None; }
      attachment := left;
      i := i + 1;
    }
    return None;
  }

  // ----- What success means -----

  /** The poll itself shows the volume attached to the instance, with the right device and card. */
  ghost predicate ShowsAttached(w: Wanted, poll: Poll) {
    && poll.Read?
    && !(poll.multiAttach == Some(false) && |poll.attachments| > 1)
    && exists j :: 0 <= j < |poll.attachments| && IsLastMatch(w, poll.attachments, j)
         && GoodAttachment(w, poll.attachments[j])
  }

  predicate IsLastMatch(w: Wanted, attachments: seq<Attachment>, j: nat)
    requires j < |attachments|
  {
    && attachments[j].instance == Some(w.instance)
    && forall k :: j < k < |attachments| ==> attachments[k].instance != Some(w.instance)
  }

  predicate GoodAttachment(w: Wanted, a: Attachment) {
    && a.state == ATTACHED
    && (a.device.Some? ==> a.device.value == w.device)
    && (w.card.Some? ==> a.card == w.card)
  }

  lemma {:induction false} LastMatchMeans(w: Wanted, attachments: seq<Attachment>)
    requires w.hyperPod.None?
    ensures var scan := LastMatch(w, attachments);
            && scan.Ok?
            && (scan.value.None? ==> forall j :: 0 <= j < |attachments| ==> attachments[j].instance != Some(w.instance))
            && (scan.value.Some? ==>
                  exists j :: 0 <= j < |attachments| && IsLastMatch(w, attachments, j) && attachments[j] == scan.value.value)
  {
    if attachments != [] {
      var last := |attachments| - 1;
      var prefix := attachments[..last];
      LastMatchMeans(w, prefix);
      var before := LastMatch(w, prefix).value;
      if attachments[last].instance == Some(w.instance) {
        assert IsLastMatch(w, attachments, last);
      } else if before.Some? {
        var j :| 0 <= j < last && IsLastMatch(w, prefix, j) && prefix[j] == before.value;
        assert IsLastMatch(w, attachments, j);
      }
    }
  }

  /**
   * Waiting for "attached" on an ordinary node, a poll ends the wait with success exactly when that poll
   * itself shows a good attachment, whatever earlier polls left behind.
   */
  lemma DoneIffPollShowsAttached(w: Wanted, carried: Option<Attachment>, poll: Poll)
    requires w.hyperPod.None? && w.state == ATTACHED
    ensures Verify(w, carried, poll).0 == Done <==> ShowsAttached(w, poll)
  {
    if poll.Read? {
      LastMatchMeans(w, poll.attachments);
      var scan := LastMatch(w, poll.attachments);
      if ShowsAttached(w, poll) {
        var j :| 0 <= j < |poll.attachments| && IsLastMatch(w, poll.attachments, j) && GoodAttachment(w, poll.attachments[j]);
        assert scan.value == Some(poll.attachments[j]);
      }
    }
  }

  /** The same in terms of the whole wait: the poll at which it succeeds shows it, and none before did. */
  lemma {:induction false} SuccessIsShownByLastPoll(w: Wanted, carried: Option<Attachment>, polls: seq<Poll>)
    requires w.hyperPod.None? && w.state == ATTACHED && Wait(w, carried, polls).Some?
    ensures var k := Wait(w, carried, polls).value;
            && k < |polls| && ShowsAttached(w, polls[k])
            && forall i :: 0 <= i < k ==> !ShowsAttached(w, polls[i])
    decreases |polls|
  {
    DoneIffPollShowsAttached(w, carried, polls[0]);
    var (verdict, left) := Verify(w, carried, polls[0]);
    if verdict == Retry {
      SuccessIsShownByLastPoll(w, left, polls[1..]);
    }
  }

  /** Waiting for "detached", a poll ends the wait with success exactly when it shows no other state. */
  lemma DoneIffPollShowsDetached(w: Wanted, carried: Option<Attachment>, poll: Poll)
    requires w.hyperPod.None? && w.state == DETACHED
    ensures Verify(w, carried, poll).0 == Done <==>
              || poll.NotFound?
              || (&& poll.Read?
                  && !(poll.multiAttach == Some(false) && |poll.attachments| > 1)
                  && forall j :: 0 <= j < |poll.attachments| && IsLastMatch(w, poll.attachments, j) ==>
                       poll.attachments[j].state in {"", DETACHED})
  {
    if poll.Read? { LastMatchMeans(w, poll.attachments); }
  }

  // ----- Exactly when a poll gives up -----

  /** The volume says it cannot have several attachments, and has. */
  predicate SeveralAttachments(poll: Poll) {
    poll.Read? && poll.multiAttach == Some(false) && |poll.attachments| > 1
  }

  /** The last attachment to the instance reports a device, and has been attaching for too long. */
  ghost predicate ShowsStuck(w: Wanted, poll: Poll) {
    && poll.Read?
    && exists j :: 0 <= j < |poll.attachments| && IsLastMatch(w, poll.attachments, j)
         && poll.attachments[j].state == "attaching" && poll.attachments[j].device.Some? && poll.attachments[j].stuck
  }

  /** No attachment to the instance, or one that says it is detached or says nothing. */
  ghost predicate ShowsNone(w: Wanted, poll: Poll) {
    && poll.Read?
    && forall j :: 0 <= j < |poll.attachments| && IsLastMatch(w, poll.attachments, j) ==>
         poll.attachments[j].state in {"", "detached"}
  }

  /** The attachment the poll shows, or the one left by earlier polls if it shows none. */
  ghost predicate IsCurrent(w: Wanted, carried: Option<Attachment>, poll: Poll, current: Option<Attachment>) {
    && poll.Read?
    && if forall j :: 0 <= j < |poll.attachments| ==> poll.attachments[j].instance != Some(w.instance)
       then current == carried
       else exists j :: 0 <= j < |poll.attachments| && IsLastMatch(w, poll.attachments, j) && current == Some(poll.attachments[j])
  }

  /** It reports another device, or not the wanted card. */
  predicate Differs(w: Wanted, current: Option<Attachment>) {
    && current.Some?
    && ((current.value.device.Some? && current.value.device.value != w.device)
        || (w.card.Some? && current.value.card != w.card))
  }

  /** An attachment that was reported as existing is gone, and what is known of it does not speak for waiting. */
  ghost predicate ShowsGone(w: Wanted, carried: Option<Attachment>, poll: Poll) {
    && w.alreadyAssigned && ShowsNone(w, poll)
    && forall current :: IsCurrent(w, carried, poll, current) ==> !Differs(w, current)
  }

  lemma {:induction false} LastMatchIsUnique(w: Wanted, attachments: seq<Attachment>, i: nat, j: nat)
    requires i < |attachments| && j < |attachments| && IsLastMatch(w, attachments, i) && IsLastMatch(w, attachments, j)
    ensures i == j
  {
  }

  lemma ScanIsCurrent(w: Wanted, carried: Option<Attachment>, poll: Poll)
    requires w.hyperPod.None? && poll.Read?
    ensures LastMatch(w, poll.attachments).Ok?
    ensures var scan := LastMatch(w, poll.attachments);
            var found := if scan.value.Some? then scan.value else carried;
            && (forall current :: IsCurrent(w, carried, poll, current) <==> current == found)
            && (forall j :: 0 <= j < |poll.attachments| && IsLastMatch(w, poll.attachments, j) ==>
                  scan.value == Some(poll.attachments[j]))
            && (scan.value.Some? ==> exists j :: 0 <= j < |poll.attachments| && IsLastMatch(w, poll.attachments, j)
                                                 && poll.attachments[j] == scan.value.value)
  {
    LastMatchMeans(w, poll.attachments);
  }

  /**
   * Waiting for "attached" on an ordinary node, a poll ends the wait with failure exactly when the volume is gone,
   * has several attachments it should not have, is stuck, or was reported as attached and is not, with nothing
   * known that differs in device or card. In every other case that is not success the wait goes on.
   */
  lemma AttachFailsIff(w: Wanted, carried: Option<Attachment>, poll: Poll)
    requires w.hyperPod.None? && w.state == "attached"
    ensures Verify(w, carried, poll).0 == Fail <==>
              || poll.NotFound?
              || SeveralAttachments(poll)
              || ShowsStuck(w, poll)
              || ShowsGone(w, carried, poll)
  {
    if poll.Read? && !SeveralAttachments(poll) {
      ScanIsCurrent(w, carried, poll);
      var scan := LastMatch(w, poll.attachments).value;
      var current := if scan.Some? then scan else carried;
      assert IsCurrent(w, carried, poll, current);
      assert ShowsNone(w, poll) <==> StateOf(scan) == "detached";
      assert ShowsGone(w, carried, poll) <==> w.alreadyAssigned && StateOf(scan) == "detached" && !Differs(w, current);
      assert ShowsStuck(w, poll)
          <==> scan.Some? && scan.value.state == "attaching" && scan.value.device.Some? && scan.value.stuck;
    }
  }

  /** Waiting for "detached", only several attachments end the wait with failure. */
  lemma DetachFailsIff(w: Wanted, carried: Option<Attachment>, poll: Poll)
    requires w.hyperPod.None? && w.state == "detached"
    ensures Verify(w, carried, poll).0 == Fail <==> SeveralAttachments(poll)
  {
    if poll.Read? { LastMatchMeans(w, poll.attachments); }
  }

  // ----- The whole wait -----

  /** What the polls before this one have left behind: the last attachment to the instance any of them showed. */
  function LeftBefore(w: Wanted, polls: seq<Poll>): Option<Attachment> {
    if polls == [] then None
    else
      var last := polls[|polls| - 1];
      if last.Read? && !SeveralAttachments(last) && LastMatch(w, last.attachments).Ok? && LastMatch(w, last.attachments).value.Some?
      then LastMatch(w, last.attachments).value
      else LeftBefore(w, polls[..|polls| - 1])
  }

  /** This poll of the wait gives up. */
  ghost predicate AttachGivesUp(w: Wanted, polls: seq<Poll>, i: nat)
    requires i < |polls|
  {
    || polls[i].NotFound?
    || SeveralAttachments(polls[i])
    || ShowsStuck(w, polls[i])
    || ShowsGone(w, LeftBefore(w, polls[..i]), polls[i])
  }

  /** The wait from poll `i` on, with what the polls before it have left, is the rest of the whole wait. */
  lemma {:induction false} WaitFrom(w: Wanted, polls: seq<Poll>, i: nat)
    requires w.hyperPod.None? && w.state == "attached" && i <= |polls|
    ensures var rest := Wait(w, LeftBefore(w, polls[..i]), polls[i..]);
            && (rest.Some? <==> exists k :: i <= k < |polls| && AttachSucceedsAt(w, polls, i, k))
            && (rest.Some? ==> i + rest.value < |polls| && AttachSucceedsAt(w, polls, i, i + rest.value))
    decreases |polls| - i
  {
    if i < |polls| {
      var left := LeftBefore(w, polls[..i]);
      assert polls[i..][0] == polls[i] && polls[i..][1..] == polls[i + 1..];
      assert polls[..i + 1][..i] == polls[..i];
      DoneIffPollShowsAttached(w, left, polls[i]);
      AttachFailsIff(w, left, polls[i]);
      LeftAfterRetry(w, left, polls, i);
      WaitFrom(w, polls, i + 1);
      FirstPollDecides(w, polls, i);
      var rest := Wait(w, left, polls[i..]);
      if ShowsAttached(w, polls[i]) {
        assert rest == Some(0);
      } else if !AttachGivesUp(w, polls, i) {
        assert Verify(w, left, polls[i]).0 == Retry;
        var next := Wait(w, LeftBefore(w, polls[..i + 1]), polls[i + 1..]);
        if k :| i <= k < |polls| && AttachSucceedsAt(w, polls, i, k) {
          assert AttachSucceedsAt(w, polls, i + 1, k);
        }
        if next.Some? { assert AttachSucceedsAt(w, polls, i, i + 1 + next.value); }
      }
    }
  }

  /** Poll `k` shows the attachment, and none from `i` up to it gives up. */
  ghost predicate AttachSucceedsAt(w: Wanted, polls: seq<Poll>, i: nat, k: nat)
    requires i <= k < |polls|
  {
    ShowsAttached(w, polls[k]) && forall j :: i <= j < k ==> !AttachGivesUp(w, polls, j)
  }

  lemma LeftAfterRetry(w: Wanted, left: Option<Attachment>, polls: seq<Poll>, i: nat)
    requires w.hyperPod.None? && w.state == "attached" && i < |polls| && left == LeftBefore(w, polls[..i])
    ensures Verify(w, left, polls[i]).0 == Retry ==> Verify(w, left, polls[i]).1 == LeftBefore(w, polls[..i + 1])
  {
    assert polls[..i + 1][..i] == polls[..i] && polls[..i + 1][i] == polls[i];
    if polls[i].Read? { LastMatchMeans(w, polls[i].attachments); }
  }

  /** A poll that shows the attachment does not give up; without it success can only come later. */
  lemma FirstPollDecides(w: Wanted, polls: seq<Poll>, i: nat)
    requires w.hyperPod.None? && w.state == "attached" && i < |polls|
    ensures ShowsAttached(w, polls[i]) ==> !AttachGivesUp(w, polls, i) && AttachSucceedsAt(w, polls, i, i)
    ensures !ShowsAttached(w, polls[i]) ==> forall k :: i < k < |polls| ==>
              (AttachSucceedsAt(w, polls, i, k) <==> !AttachGivesUp(w, polls, i) && AttachSucceedsAt(w, polls, i + 1, k))
    ensures forall k :: i < k < |polls| && AttachSucceedsAt(w, polls, i, k) ==> !AttachGivesUp(w, polls, i)
  {
    DoneIffPollShowsAttached(w, LeftBefore(w, polls[..i]), polls[i]);
    AttachFailsIff(w, LeftBefore(w, polls[..i]), polls[i]);
  }

  /** A wait for "attached" succeeds exactly when some poll shows the attachment and no earlier one gives up. */
  lemma AttachSucceedsIff(w: Wanted, polls: seq<Poll>)
    requires w.hyperPod.None? && w.state == "attached"
    ensures Wait(w, None, polls).Some? <==>
              exists k :: 0 <= k < |polls| && ShowsAttached(w, polls[k]) && forall j :: 0 <= j < k ==> !AttachGivesUp(w, polls, j)
  {
    WaitFrom(w, polls, 0);
    assert polls[..0] == [] && polls[0..] == polls;
    if Wait(w, None, polls).Some? { assert AttachSucceedsAt(w, polls, 0, Wait(w, None, polls).value); }
    if k :| 0 <= k < |polls| && ShowsAttached(w, polls[k]) && forall j :: 0 <= j < k ==> !AttachGivesUp(w, polls, j) {
      assert AttachSucceedsAt(w, polls, 0, k);
    }
  }

  /** The poll shows the volume gone, or without an attachment to the instance that is not detached. */
  ghost predicate ShowsDetached(w: Wanted, poll: Poll) {
    poll.NotFound? || (!SeveralAttachments(poll) && ShowsNone(w, poll))
  }

  /** A wait for "detached" succeeds exactly when some poll shows it and no earlier one has several attachments. */
  lemma {:induction false} DetachSucceedsIff(w: Wanted, carried: Option<Attachment>, polls: seq<Poll>)
    requires w.hyperPod.None? && w.state == "detached"
    ensures Wait(w, carried, polls).Some? <==>
              exists k :: 0 <= k < |polls| && ShowsDetached(w, polls[k]) && forall j :: 0 <= j < k ==> !SeveralAttachments(polls[j])
    decreases |polls|
  {
    if polls != [] {
      DoneIffPollShowsDetached(w, carried, polls[0]);
      DetachFailsIff(w, carried, polls[0]);
      var rest, left := polls[1..], Verify(w, carried, polls[0]).1;
      DetachSucceedsIff(w, left, rest);
      if k :| 0 <= k < |rest| && ShowsDetached(w, rest[k]) && forall j :: 0 <= j < k ==> !SeveralAttachments(rest[j]) {
        assert polls[k + 1] == rest[k];
        assert forall j :: 1 <= j < k + 1 ==> polls[j] == rest[j - 1];
      }
      if k :| 0 <= k < |polls| && ShowsDetached(w, polls[k]) && forall j :: 0 <= j < k ==> !SeveralAttachments(polls[j]) {
        if k > 0 { assert rest[k - 1] == polls[k] && forall j :: 0 <= j < k - 1 ==> rest[j] == polls[j + 1]; }
      }
    }
  }

  // ----- HyperPod nodes -----

  /** The last attachment whose resource is the node's instance. */
  predicate IsLastOfResource(instance: string, attachments: seq<Attachment>, j: nat)
    requires j < |attachments|
  {
    && attachments[j].resource == ResourceOf(instance)
    && forall k :: j < k < |attachments| ==> attachments[k].resource != ResourceOf(instance)
  }

  lemma {:induction false} LastOfResourceMeans(w: Wanted, attachments: seq<Attachment>)
    requires w.hyperPod.Some?
    ensures var scan, instance := LastMatch(w, attachments), w.hyperPod.value;
            && (scan.Err? <==> exists j :: 0 <= j < |attachments| && attachments[j].resource.BadResource?)
            && (scan.Ok? && scan.value.None? ==>
                  forall j :: 0 <= j < |attachments| ==> attachments[j].resource != ResourceOf(instance))
            && (scan.Ok? && scan.value.Some? ==>
                  exists j :: 0 <= j < |attachments| && IsLastOfResource(instance, attachments, j) && attachments[j] == scan.value.value)
  {
    if attachments != [] {
      var last := |attachments| - 1;
      var prefix := attachments[..last];
      LastOfResourceMeans(w, prefix);
      assert forall j :: 0 <= j < last ==> prefix[j] == attachments[j];
      var before := LastMatch(w, prefix);
      if before.Err? {
        var j :| 0 <= j < last && prefix[j].resource.BadResource?;
        assert attachments[j].resource.BadResource?;
      } else if attachments[last].resource == ResourceOf(w.hyperPod.value) {
        assert IsLastOfResource(w.hyperPod.value, attachments, last);
      } else if before.value.Some? {
        var j :| 0 <= j < last && IsLastOfResource(w.hyperPod.value, prefix, j) && prefix[j] == before.value.value;
        assert IsLastOfResource(w.hyperPod.value, attachments, j);
      }
    }
  }

  ghost predicate Unreadable(poll: Poll) {
    poll.Read? && exists j :: 0 <= j < |poll.attachments| && poll.attachments[j].resource.BadResource?
  }

  ghost predicate ResourceAttached(instance: string, poll: Poll) {
    && poll.Read?
    && exists j :: 0 <= j < |poll.attachments| && IsLastOfResource(instance, poll.attachments, j)
                   && poll.attachments[j].state == "attached"
  }

  ghost predicate ResourceGone(instance: string, poll: Poll) {
    && poll.Read?
    && forall j :: 0 <= j < |poll.attachments| && IsLastOfResource(instance, poll.attachments, j) ==>
         poll.attachments[j].state in {"", "detached"}
  }

  /** On a HyperPod node, "attached" is the state alone, and a resource that does not parse ends the wait. */
  lemma HyperPodAttachIff(w: Wanted, carried: Option<Attachment>, poll: Poll)
    requires w.hyperPod.Some? && w.state == "attached"
    ensures var verdict, instance := Verify(w, carried, poll).0, w.hyperPod.value;
            && (verdict == Done <==> !SeveralAttachments(poll) && !Unreadable(poll) && ResourceAttached(instance, poll))
            && (verdict == Fail <==>
                  || poll.NotFound? || SeveralAttachments(poll) || Unreadable(poll)
                  || (w.alreadyAssigned && ResourceGone(instance, poll)))
  {
    if poll.Read? { LastOfResourceMeans(w, poll.attachments); }
  }

  lemma HyperPodDetachIff(w: Wanted, carried: Option<Attachment>, poll: Poll)
    requires w.hyperPod.Some? && w.state == "detached"
    ensures var verdict, instance := Verify(w, carried, poll).0, w.hyperPod.value;
            && (verdict == Done <==>
                  poll.NotFound? || (!SeveralAttachments(poll) && !Unreadable(poll) && ResourceGone(instance, poll)))
            && (verdict == Fail <==> SeveralAttachments(poll) || Unreadable(poll))
  {
    if poll.Read? { LastOfResourceMeans(w, poll.attachments); }
  }

  // ----- What the surviving attachment influences -----

  /**
   * The attachment left by earlier polls changes a verdict in one way only: a failure because an attachment
   * reported as existing is gone becomes a retry.
   */
  lemma CarriedOnlyPostponesFailure(w: Wanted, carried: Option<Attachment>, poll: Poll)
    requires w.hyperPod.None? && w.state == ATTACHED
    ensures var forgetful, actual := Verify(w, None, poll).0, Verify(w, carried, poll).0;
            forgetful == actual || (w.alreadyAssigned && forgetful == Fail && actual == Retry)
  {
  }

  /** The wait with a poll function that keeps nothing between polls. */
  function WaitForgetful(w: Wanted, polls: seq<Poll>): Option<nat> {
    if polls == [] then None
    else
      match Verify(w, None, polls[0]).0
      case Done => Some(0)
      case Fail => None
      case Retry =>
        var later := WaitForgetful(w, polls[1..]);
        if later.Some? then Some(later.value + 1) else None
  }

  /**
   * Forgetting the attachment between polls would change nothing for a new attachment, and could only turn
   * successes into failures for one reported as existing.
   */
  lemma {:induction false} ForgettingNeverHelps(w: Wanted, carried: Option<Attachment>, polls: seq<Poll>)
    requires w.hyperPod.None? && w.state == ATTACHED
    ensures !w.alreadyAssigned ==> WaitForgetful(w, polls) == Wait(w, carried, polls)
    ensures WaitForgetful(w, polls).Some? ==> WaitForgetful(w, polls) == Wait(w, carried, polls)
    decreases |polls|
  {
    if polls != [] {
      CarriedOnlyPostponesFailure(w, carried, polls[0]);
      ForgettingNeverHelps(w, Verify(w, carried, polls[0]).1, polls[1..]);
    }
  }

  /** It would: an attachment first seen on another device, then gone for a poll, then right. */
  lemma ForgettingCanHurt()
    ensures exists w: Wanted, polls ::
              && w.hyperPod.None? && w.state == ATTACHED
              && Wait(w, None, polls).Some? && WaitForgetful(w, polls).None?
  {
    var w := Wanted(ATTACHED, "i-1", "/dev/xvdaa", true, None, None);
    var wrong := Attachment(Some("i-1"), NoResource, ATTACHED, Some("/dev/xvdab"), None, false);
    var right := wrong.(device := Some("/dev/xvdaa"));
    var p0, p1, p2 := Read(None, [wrong]), Read(None, []), Read(None, [right]);
    var polls := [p0, p1, p2];
    LastMatchMeans(w, [wrong]);
    LastMatchMeans(w, [right]);
    assert Verify(w, None, p0) == (Retry, Some(wrong));
    assert Verify(w, Some(wrong), p1) == (Retry, Some(wrong));
    assert Verify(w, Some(wrong), p2).0 == Done;
    assert Verify(w, None, p1).0 == Fail;
    assert polls[1..] == [p1, p2] && [p1, p2][1..] == [p2];
    assert Wait(w, Some(wrong), [p2]) == Some(0);
    assert Wait(w, Some(wrong), [p1, p2]) == Some(1);
    assert Wait(w, None, polls) == Some(2);
    assert WaitForgetful(w, [p1, p2]) == None;
    assert WaitForgetful(w, polls) == None;
  }
}
