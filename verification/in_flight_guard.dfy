/** The guard against concurrent operations, pkg/driver/internal/inflight.go, and its key. */
module InFlightGuard {

  class InFlight {
    var inFlight: set<string>

    constructor ()
      ensures inFlight == {}
    {
      inFlight := {};
    }

    method Insert(key: string) returns (ok: bool)
      modifies this
      ensures ok <==> key !in old(inFlight)
      ensures inFlight == old(inFlight) + {key}
    {
      if key in inFlight { return false; }
      inFlight := inFlight + {key};
      return true;
    }

    method Delete(key: string)
      modifies this
      ensures inFlight == old(inFlight) - {key}
    {
      inFlight := inFlight - {key};
    }
  }

  /** The key a publish or unpublish call holds; the other calls hold a name or an ID, as if for no node. */
  function Key(volume: string, node: string): string {
    volume + node
  }

  predicate AlphaNumeric(c: char) {
    'a' <= c <= 'z' || '0' <= c <= '9'
  }

  /** "vol-" followed by one or more lower-case letters or digits. */
  predicate IsVolumeId(id: string) {
    && "vol-" < id
    && forall i :: 4 <= i < |id| ==> AlphaNumeric(id[i])
  }

  /** "snap-" and whatever follows it. */
  predicate IsSnapshotId(id: string) {
    "snap-" <= id
  }

  /** An EC2 instance, or a HyperPod node; what follows the prefix does not matter. */
  predicate IsNodeId(id: string) {
    "i-" <= id || "hyperpod-" <= id
  }

  /** Where a node ID has its first dash. */
  function Dash(node: string): nat
    requires IsNodeId(node)
  {
    if "i-" <= node then 1 else 8
  }

  /** On such identifiers the concatenation is injective: the second dash tells where the node ID starts. */
  lemma KeyIsInjective(v1: string, n1: string, v2: string, n2: string)
    requires IsVolumeId(v1) && IsNodeId(n1) && IsVolumeId(v2) && IsNodeId(n2)
    requires Key(v1, n1) == Key(v2, n2)
    ensures v1 == v2 && n1 == n2
  {
    if |v1| < |v2| {
      ShorterVolumeClashes(v1, n1, v2, n2);
    } else if |v2| < |v1| {
      ShorterVolumeClashes(v2, n2, v1, n1);
    } else {
      assert v1 == Key(v1, n1)[..|v1|] == v2;
      assert n1 == Key(v1, n1)[|v1|..] == n2;
    }
  }

  /** The second dash of a key, and the letter before it. */
  lemma SecondDash(v: string, n: string)
    requires IsVolumeId(v) && IsNodeId(n)
    ensures var at := |v| + Dash(n);
            && at < |Key(v, n)| && Key(v, n)[at] == '-'
            && Key(v, n)[at - 1] == (if Dash(n) == 1 then 'i' else 'd')
            && forall i :: 4 <= i < at ==> Key(v, n)[i] != '-'
  {
    var at, hyperpod := |v| + Dash(n), "hyperpod-";
    assert forall i :: 0 <= i < Dash(n) ==> n[i] == (if Dash(n) == 1 then 'i' else hyperpod[i]);
    forall i | 4 <= i < at ensures Key(v, n)[i] != '-' {
      if i < |v| { assert AlphaNumeric(v[i]); } else { assert Key(v, n)[i] == n[i - |v|]; }
    }
  }

  lemma ShorterVolumeClashes(v1: string, n1: string, v2: string, n2: string)
    requires IsVolumeId(v1) && IsNodeId(n1) && IsVolumeId(v2) && IsNodeId(n2)
    requires |v1| < |v2|
    ensures Key(v1, n1) != Key(v2, n2)
  {
    SecondDash(v1, n1);
    SecondDash(v2, n2);
  }

  /** Deleting a volume or a snapshot never gets in the way of a publish or unpublish call. */
  lemma DeletesHaveOtherKeys(v: string, n: string, id: string)
    requires IsVolumeId(v) && IsNodeId(n) && (IsVolumeId(id) || IsSnapshotId(id))
    ensures Key(v, n) != Key(id, "")
  {
    assert Key(id, "") == id;
    if IsVolumeId(id) {
      SecondDash(v, n);
      assert forall i :: 4 <= i < |id| ==> id[i] != '-';
    } else {
      assert Key(v, n)[0] == 'v' && id[0] == 's';
    }
  }

  /** On arbitrary strings it is not. */
  lemma KeyIsNotInjectiveInGeneral()
    ensures exists v1, n1, v2, n2 :: Key(v1, n1) == Key(v2, n2) && (v1 != v2 || n1 != n2)
  {
    assert Key("a", "bc") == Key("ab", "c");
  }
}
