/**
 * Batched lookups with a quarantine for IDs that poison a batch: removeLikelyBadIds and
 * execBatchDescribeVolumes of pkg/cloud/cloud.go, for the batchers that look volumes up by ID and by name.
 *
 * EC2 fails a whole batch if one of its IDs does not exist. IDs named in such an error are put into a
 * cache and from then on looked up one by one.
 */
module Quarantine {

  import opened Base

  /** EC2: the volumes that exist, and which IDs it names when it refuses a batch. */
  datatype Ec2<!V> = Ec2(live: map<string, V>, blame: set<string> -> set<string>)

  /** A refusal names at least one missing ID of the batch, and whatever else. */
  ghost predicate NamesAMissingId<V>(ec2: Ec2<V>) {
    forall ids :: !(ids <= ec2.live.Keys) ==> ec2.blame(ids) * (ids - ec2.live.Keys) != {}
  }

  function Elements(ids: seq<string>): set<string> {
    set id | id in ids
  }

  /** What a lookup of each ID by itself would return. */
  function OneByOne<V>(ec2: Ec2<V>, input: seq<string>): map<string, V> {
    map id | id in Elements(input) && id in ec2.live :: ec2.live[id]
  }

  datatype Round<V> = Round(result: Option<map<string, V>>, cache: set<string>)

  /** One execution of the batch. */
  function Exec<V>(ec2: Ec2<V>, cache: set<string>, input: seq<string>): Round<V> {
    var good, bad := Elements(input) - cache, Elements(input) * cache;
    if !(good <= ec2.live.Keys) then Round(None, cache + ec2.blame(good))
    else Round(Some(map id | id in good + bad * ec2.live.Keys :: ec2.live[id]), cache - bad * ec2.live.Keys)
  }

  class Batch<V> {
    /** The keys of the cache of likely missing IDs. */
    var cache: set<string>

    constructor ()
      ensures cache == {}
    {
      cache := {};
    }

    method RemoveLikelyBadIds(input: seq<string>) returns (good: seq<string>, bad: seq<string>)
      ensures multiset(good) + multiset(bad) == multiset(input)
      ensures forall id :: id in good ==> id !in cache
      ensures forall id :: id in bad ==> id in cache
    {
      good, bad := [], [];
      var i := |input|;
      while i > 0
        invariant 0 <= i <= |input|
        invariant multiset(good) + multiset(bad) == multiset(input[i..])
        invariant forall id :: id in good ==> id !in cache
        invariant forall id :: id in bad ==> id in cache
      {
        i := i - 1;
        assert input[i..] == [input[i]] + input[i + 1..];
        if input[i] in cache { bad := bad + [input[i]]; } else { good := good + [input[i]]; }
      }
      assert input[0..] == input;
    }

    method ExecBatchDescribeVolumes(ec2: Ec2<V>, input: seq<string>) returns (r: Option<map<string, V>>)
      modifies this
      ensures Round(r, cache) == Exec(ec2, old(cache), input)
    {
      var good, bad := RemoveLikelyBadIds(input);
      PartitionElements(input, good, bad, cache);
      var ids := Elements(good);
      var result: map<string, V> := map[];
      if |good| >= 1 {
        if !(ids <= ec2.live.Keys) {
          cache := cache + ec2.blame(ids);
          return None;
        }
        result := map id | id in ids :: ec2.live[id];
      }
      result := LookUpBadIds(ec2, ids, bad, result);
      return Some(result);
    }

    /** Quarantined IDs one by one: what exists again is returned and leaves the cache. */
    method LookUpBadIds(ec2: Ec2<V>, ids: set<string>, bad: seq<string>, good: map<string, V>)
      returns (result: map<string, V>)
      requires ids <= ec2.live.Keys && good == map id | id in ids :: ec2.live[id]
      modifies this
      ensures cache == old(cache) - Elements(bad) * ec2.live.Keys
      ensures result == map id | id in ids + Elements(bad) * ec2.live.Keys :: ec2.live[id]
    {
      result := good;
      for i := 0 to |bad|
        invariant cache == old(cache) - Elements(bad[..i]) * ec2.live.Keys
        invariant result == map id | id in ids + Elements(bad[..i]) * ec2.live.Keys :: ec2.live[id]
      {
        assert Elements(bad[..i + 1]) == Elements(bad[..i]) + {bad[i]};
        if bad[i] in ec2.live {
          cache := cache - {bad[i]};
          result := result[bad[i] := ec2.live[bad[i]]];
        }
      }
      assert bad[..|bad|] == bad;
    }

    /** The same code for the batcher that looks volumes up by name, which uses the same cache. */
    method ExecBatchDescribeVolumesByName(dir: Directory, input: seq<string>) returns (result: map<string, string>)
      requires ListsNamed(dir)
      modifies this
      ensures IsNameResult(dir, Elements(input) - old(cache), Elements(input) * old(cache), result)
      ensures cache == old(cache) - Elements(input) * dir.names.Keys
    {
      var good, bad := RemoveLikelyBadIds(input);
      PartitionElements(input, good, bad, cache);
      ghost var known := cache;
      var resp: seq<string> := if |good| >= 1 then dir.filter(Elements(good)) else [];
      ghost var filtered := resp;
      for i := 0 to |bad|
        invariant cache == known - Elements(bad[..i]) * dir.names.Keys
        invariant forall id :: id in resp <==> id in filtered || (id in bad[..i] && id in dir.names)
      {
        assert Elements(bad[..i + 1]) == Elements(bad[..i]) + {bad[i]};
        if bad[i] in dir.names {
          cache := cache - {bad[i]};
          resp := resp + [bad[i]];
        }
      }
      assert bad[..|bad|] == bad;
      assert |good| >= 1 ==> good[0] in Elements(good);
      result := KeyedByName(dir, resp);
      NameResultFrom(dir, Elements(good), Elements(bad), filtered, resp, result);
    }
  }

  // ----- Looking up by name -----

  /** The volumes that exist with their name tags, and the order in which EC2 lists those with certain names. */
  datatype Directory = Directory(names: map<string, Option<string>>, filter: set<string> -> seq<string>)

  predicate Bears(dir: Directory, id: string, name: string) {
    id in dir.names && dir.names[id] == Some(name)
  }

  /** A filter finds exactly the volumes with such a name; it refuses nothing. */
  ghost predicate ListsNamed(dir: Directory) {
    forall names, id :: id in dir.filter(names) <==> id in dir.names && dir.names[id].Some? && dir.names[id].value in names
  }

  /** Found are the good names that some volume bears, and the names of the volumes whose IDs are the bad names. */
  ghost predicate IsNameResult(dir: Directory, good: set<string>, bad: set<string>, result: map<string, string>) {
    && (forall name :: name in result <==>
          (name in good && exists id :: Bears(dir, id, name)) || exists id :: id in bad && Bears(dir, id, name))
    && (forall name :: name in result ==> Bears(dir, result[name], name))
  }

  /** The response as a map; of volumes with one name the last wins, and one without a name is skipped. */
  method KeyedByName(dir: Directory, resp: seq<string>) returns (result: map<string, string>)
    requires forall id :: id in resp ==> id in dir.names
    ensures forall name :: name in result <==> exists id :: id in resp && Bears(dir, id, name)
    ensures forall name :: name in result ==> Bears(dir, result[name], name)
  {
    result := map[];
    for i := 0 to |resp|
      invariant forall name :: name in result <==> exists id :: id in resp[..i] && Bears(dir, id, name)
      invariant forall name :: name in result ==> Bears(dir, result[name], name)
    {
      var id := resp[i];
      ghost var before := result;
      if dir.names[id].Some? { result := result[dir.names[id].value := id]; }
      assert resp[..i + 1] == resp[..i] + [id];
      forall name ensures name in result <==> exists other :: other in resp[..i + 1] && Bears(dir, other, name) {
        if name in result && name !in before { assert id in resp[..i + 1] && Bears(dir, id, name); }
        if name in before {
          var other :| other in resp[..i] && Bears(dir, other, name);
          assert other in resp[..i + 1];
        }
      }
    }
    assert resp[..|resp|] == resp;
  }

  lemma NameResultFrom(
    dir: Directory, good: set<string>, bad: set<string>, filtered: seq<string>, resp: seq<string>, result: map<string, string>)
    requires ListsNamed(dir)
    requires filtered == (if good != {} then dir.filter(good) else [])
    requires forall id :: id in resp <==> id in filtered || (id in bad && id in dir.names)
    requires forall name :: name in result <==> exists id :: id in resp && Bears(dir, id, name)
    requires forall name :: name in result ==> Bears(dir, result[name], name)
    ensures IsNameResult(dir, good, bad, result)
  {
    forall name ensures name in result <==>
      (name in good && exists id :: Bears(dir, id, name)) || exists id :: id in bad && Bears(dir, id, name)
    {
      if id :| id in resp && Bears(dir, id, name) {
        assert id in filtered || id in bad;
      }
      if id :| Bears(dir, id, name) && (name in good || id in bad) {
        assert name in good ==> id in dir.filter(good);
        assert id in resp;
      }
    }
  }

  /** The batch finds exactly those of its names that a lookup by itself would find. */
  ghost predicate AgreesWithSingleLookups(dir: Directory, input: seq<string>, result: map<string, string>) {
    forall name :: name in input ==> (name in result <==> exists id :: Bears(dir, id, name))
  }

  /**
   * A batch of names agrees with single lookups exactly when each of its names that some volume bears is not in
   * the cache, or is borne by a volume whose ID is itself a cached name of the batch. Without cached names it
   * always does; with names that are nobody's ID, only then.
   */
  lemma NamesAgreeIff(dir: Directory, cache: set<string>, input: seq<string>, result: map<string, string>)
    requires IsNameResult(dir, Elements(input) - cache, Elements(input) * cache, result)
    ensures AgreesWithSingleLookups(dir, input, result) <==>
              forall name :: name in input && name in cache && (exists id :: Bears(dir, id, name)) ==>
                exists id :: id in input && id in cache && Bears(dir, id, name)
    ensures (forall name :: name in input ==> name !in dir.names && exists id :: Bears(dir, id, name)) ==>
              (AgreesWithSingleLookups(dir, input, result) <==> forall name :: name in input ==> name !in cache)
  {
    var good, bad := Elements(input) - cache, Elements(input) * cache;
    forall name | name in input && name in cache
      ensures name in result <==> exists id :: id in input && id in cache && Bears(dir, id, name)
    {
      assert name !in good;
      if id :| id in input && id in cache && Bears(dir, id, name) { assert id in bad; }
    }
    forall name | name in input && name !in cache ensures name in result <==> exists id :: Bears(dir, id, name) {
      assert name in good;
    }
  }

  /** It happens: a volume named like a missing ID is not found while that ID is quarantined. */
  lemma CachedNameIsNotFound(dir: Directory, result: map<string, string>)
    requires dir.names == map["vol-1" := Some("vol-2")]
    requires IsNameResult(dir, Elements(["vol-2"]) - {"vol-2"}, Elements(["vol-2"]) * {"vol-2"}, result)
    ensures Bears(dir, "vol-1", "vol-2") && "vol-2" !in result
  {
  }

  lemma PartitionElements(input: seq<string>, good: seq<string>, bad: seq<string>, cache: set<string>)
    requires multiset(good) + multiset(bad) == multiset(input)
    requires forall id :: id in good ==> id !in cache
    requires forall id :: id in bad ==> id in cache
    ensures Elements(good) == Elements(input) - cache
    ensures Elements(bad) == Elements(input) * cache
  {
    forall id ensures id in input <==> id in good || id in bad {
      assert id in multiset(input) <==> id in multiset(good) || id in multiset(bad);
    }
  }

  // ----- Agreement with single lookups -----

  /**
   * Whatever the cache holds, a batch that succeeds agrees with looking up each ID by itself: quarantined
   * IDs that came back are found, and the cache forgets exactly those.
   */
  lemma SuccessAgreesWithOneByOne<V>(ec2: Ec2<V>, cache: set<string>, input: seq<string>)
    requires Exec(ec2, cache, input).result.Some?
    ensures Exec(ec2, cache, input).result.value == OneByOne(ec2, input)
    ensures Exec(ec2, cache, input).cache == cache - OneByOne(ec2, input).Keys
  {
    assert Elements(input) == (Elements(input) - cache) + Elements(input) * cache;
  }

  /** A batch succeeds exactly when every missing ID in it is quarantined; else the IDs EC2 names join the quarantine. */
  lemma SucceedsIffMissingQuarantined<V>(ec2: Ec2<V>, cache: set<string>, input: seq<string>)
    ensures Exec(ec2, cache, input).result.None? ==>
              Exec(ec2, cache, input).cache == cache + ec2.blame(set id | id in input && id !in cache)
    ensures Exec(ec2, cache, input).result.Some? <==> Elements(input) - ec2.live.Keys <= cache
  {
    assert Elements(input) - cache == set id | id in input && id !in cache;
  }

  // ----- Progress -----

  /** The IDs of `all` that are missing and not yet quarantined. */
  function Dangerous<V>(ec2: Ec2<V>, cache: set<string>, all: set<string>): set<string> {
    all - ec2.live.Keys - cache
  }

  lemma SmallerSet(a: set<string>, b: set<string>)
    requires a < b
    ensures |a| < |b|
  {
    assert b == a + (b - a);
    assert b - a != {};
  }

  /** A failing round strictly shrinks the dangerous IDs; a successful one leaves them as they are. */
  lemma RoundShrinksDanger<V>(ec2: Ec2<V>, cache: set<string>, input: seq<string>, all: set<string>)
    requires NamesAMissingId(ec2) && Elements(input) <= all
    ensures var r := Exec(ec2, cache, input);
            if r.result.None? then
              && Dangerous(ec2, r.cache, all) < Dangerous(ec2, cache, all)
              && |Dangerous(ec2, r.cache, all)| < |Dangerous(ec2, cache, all)|
            else Dangerous(ec2, r.cache, all) == Dangerous(ec2, cache, all)
  {
    var r := Exec(ec2, cache, input);
    if r.result.None? {
      var good := Elements(input) - cache;
      var id :| id in ec2.blame(good) * (good - ec2.live.Keys);
      assert id in Dangerous(ec2, cache, all) && id !in Dangerous(ec2, r.cache, all);
      SmallerSet(Dangerous(ec2, r.cache, all), Dangerous(ec2, cache, all));
    }
  }

  function CacheAfter<V>(ec2: Ec2<V>, cache: set<string>, inputs: seq<seq<string>>): set<string> {
    if inputs == [] then cache
    else Exec(ec2, CacheAfter(ec2, cache, inputs[..|inputs| - 1]), inputs[|inputs| - 1]).cache
  }

  /** How many of a series of batches fail. */
  function Failures<V>(ec2: Ec2<V>, cache: set<string>, inputs: seq<seq<string>>): nat {
    if inputs == [] then 0
    else
      var prefix := inputs[..|inputs| - 1];
      Failures(ec2, cache, prefix)
      + if Exec(ec2, CacheAfter(ec2, cache, prefix), inputs[|inputs| - 1]).result.None? then 1 else 0
  }

  /**
   * Over any series of batches, of whatever composition, the failures are no more than the missing IDs that
   * were not quarantined at the start: each of these poisons at most one batch.
   */
  lemma {:induction false} FailuresAreBounded<V>(
    ec2: Ec2<V>, cache: set<string>, inputs: seq<seq<string>>, all: set<string>)
    requires NamesAMissingId(ec2) && forall i :: 0 <= i < |inputs| ==> Elements(inputs[i]) <= all
    ensures Failures(ec2, cache, inputs) + |Dangerous(ec2, CacheAfter(ec2, cache, inputs), all)|
         <= |Dangerous(ec2, cache, all)|
  {
    if inputs != [] {
      var prefix := inputs[..|inputs| - 1];
      FailuresAreBounded(ec2, cache, prefix, all);
      RoundShrinksDanger(ec2, CacheAfter(ec2, cache, prefix), inputs[|inputs| - 1], all);
    }
  }

  /** Repeating one batch until it succeeds: the failures before that, and the final round. */
  ghost function Retry<V>(ec2: Ec2<V>, cache: set<string>, input: seq<string>): (nat, Round<V>)
    requires NamesAMissingId(ec2)
    decreases |Dangerous(ec2, cache, Elements(input))|
  {
    var r := Exec(ec2, cache, input);
    if r.result.Some? then (0, r)
    else
      RoundShrinksDanger(ec2, cache, input, Elements(input));
      var (more, final) := Retry(ec2, r.cache, input);
      (more + 1, final)
  }

  /** A repeated batch ends in success after at most as many failures as it has dangerous IDs. */
  lemma {:induction false} RetrySucceeds<V>(ec2: Ec2<V>, cache: set<string>, input: seq<string>)
    requires NamesAMissingId(ec2)
    ensures var (failures, final) := Retry(ec2, cache, input);
            && failures <= |Dangerous(ec2, cache, Elements(input))|
            && final.result == Some(OneByOne(ec2, input))
    decreases |Dangerous(ec2, cache, Elements(input))|
  {
    var r := Exec(ec2, cache, input);
    if r.result.Some? {
      SuccessAgreesWithOneByOne(ec2, cache, input);
    } else {
      RoundShrinksDanger(ec2, cache, input, Elements(input));
      RetrySucceeds(ec2, r.cache, input);
    }
  }
}
