/** The legal device names and the allocator that picks one, pkg/cloud/devicemanager. */
module DeviceNames {

  import opened Base

  const NAME_COUNT: nat := 127

  /** How many names come first because they also work on instances that are not based on Nitro. */
  const SAFE_COUNT: nat := 52

  function Letter(i: nat): char
    requires i < 26
  {
    ('a' as int + i) as char
  }

  /**
   * The ordered list of legal names: xvdaa to xvdaz, xvdba to xvdbz, xvdda to xvddx, xvdb to xvdz, sdb to
   * sdz, and sda2.
   */
  function Name(i: nat): string
    requires i < NAME_COUNT
  {
    if i < 26 then "/dev/xvda" + [Letter(i)]
    else if i < 52 then "/dev/xvdb" + [Letter(i - 26)]
    else if i < 76 then "/dev/xvdd" + [Letter(i - 52)]
    else if i < 101 then "/dev/xvd" + [Letter(i - 75)]
    else if i < 126 then "/dev/sd" + [Letter(i - 100)]
    else "/dev/sda2"
  }

  predicate Legal(name: string) {
    exists i: nat :: i < NAME_COUNT && Name(i) == name
  }

  /** Which of the six series a name belongs to can be read off its length and two of its letters. */
  function Series(i: nat): nat {
    if i < 26 then 0 else if i < 52 then 1 else if i < 76 then 2 else if i < 101 then 3 else if i < 126 then 4 else 5
  }

  lemma SeriesShows(i: nat)
    requires i < NAME_COUNT
    ensures var name, s := Name(i), Series(i);
            && |name| == (if s < 3 then 10 else if s == 3 || s == 5 then 9 else 8)
            && (s < 3 ==> name[8] == (if s == 0 then 'a' else if s == 1 then 'b' else 'd') && name[9] == Letter(i - [0, 26, 52][s]))
            && (s == 3 ==> name[5] == 'x' && name[8] == Letter(i - 75))
            && (s == 4 ==> name[7] == Letter(i - 100))
            && (s == 5 ==> name[5] == 's')
  {
  }

  lemma NamesAreDistinct(i: nat, j: nat)
    requires i < j < NAME_COUNT
    ensures Name(i) != Name(j)
  {
    SeriesShows(i);
    SeriesShows(j);
  }

  // ----- Choosing a name -----

  predicate Clean(existing: set<string>, bad: set<string>, i: nat)
    requires i < NAME_COUNT
  {
    Name(i) !in existing && Name(i) !in bad
  }

  /** The first clean name's index at or after `i`, or NAME_COUNT. */
  function FirstClean(existing: set<string>, bad: set<string>, i: nat): nat
    requires i <= NAME_COUNT
    decreases NAME_COUNT - i
  {
    if i == NAME_COUNT || Clean(existing, bad, i) then i else FirstClean(existing, bad, i + 1)
  }

  lemma {:induction false} FirstCleanIsFirst(existing: set<string>, bad: set<string>, i: nat)
    requires i <= NAME_COUNT
    ensures var k := FirstClean(existing, bad, i);
            && i <= k <= NAME_COUNT
            && (k < NAME_COUNT ==> Clean(existing, bad, k))
            && forall j: nat :: i <= j < k ==> !Clean(existing, bad, j)
    decreases NAME_COUNT - i
  {
    if i < NAME_COUNT && !Clean(existing, bad, i) { FirstCleanIsFirst(existing, bad, i + 1); }
  }

  /**
   * The names the allocator may return: the first clean one; else, as a last resort, any likely-bad name
   * that is not in use, which one depending on map order. Meeting the empty string among the likely-bad
   * names would end that search without a result.
   */
  ghost predicate MayAllocate(existing: set<string>, bad: set<string>, r: Option<string>) {
    var k := FirstClean(existing, bad, 0);
    if k < NAME_COUNT then r == Some(Name(k))
    else if r.Some? then r.value in bad && r.value !in existing && r.value != ""
    else bad <= existing || "" in bad
  }

  method GetNext(existing: set<string>, bad: set<string>) returns (r: Option<string>)
    ensures MayAllocate(existing, bad, r)
  {
    var i := 0;
    while i < NAME_COUNT
      invariant 0 <= i <= NAME_COUNT
      invariant FirstClean(existing, bad, 0) == FirstClean(existing, bad, i)
    {
      if Clean(existing, bad, i) { return Some(Name(i)); }
      i := i + 1;
    }
    var finalResortName := "";
    var left := bad;
    while left != {}
      invariant left <= bad && forall name :: name in bad - left ==> name in existing
      decreases |left|
    {
      var name :| name in left;
      if name !in existing {
        finalResortName := name;
        break;
      }
      left := left - {name};
    }
    if finalResortName != "" { return Some(finalResortName); }
    return None;
  }

  // ----- What the choice guarantees -----

  /** An allocated name is free, it is legal, and it is a likely-bad one only if no clean name is free. */
  lemma AllocatedNameIsFreeAndLegal(existing: set<string>, bad: set<string>, name: string)
    requires MayAllocate(existing, bad, Some(name))
    requires forall b :: b in bad ==> Legal(b)
    ensures name !in existing && Legal(name) && name != ""
    ensures name in bad ==> forall i: nat :: i < NAME_COUNT ==> !Clean(existing, bad, i)
  {
    FirstCleanIsFirst(existing, bad, 0);
    var k := FirstClean(existing, bad, 0);
    if k < NAME_COUNT { SeriesShows(k); }
  }

  /** Allocation fails exactly when all 127 legal names are in use. */
  lemma FailsIffAllInUse(existing: set<string>, bad: set<string>)
    requires forall b :: b in bad ==> Legal(b)
    ensures MayAllocate(existing, bad, None) <==> forall i: nat :: i < NAME_COUNT ==> Name(i) in existing
  {
    FirstCleanIsFirst(existing, bad, 0);
    if "" in bad {
      var i: nat :| i < NAME_COUNT && Name(i) == "";
      SeriesShows(i);
    }
    if bad <= existing && FirstClean(existing, bad, 0) == NAME_COUNT {
      forall i: nat | i < NAME_COUNT ensures Name(i) in existing { assert !Clean(existing, bad, i); }
    }
    if forall i: nat :: i < NAME_COUNT ==> Name(i) in existing {
      assert FirstClean(existing, bad, 0) == NAME_COUNT;
    }
  }

  function FirstNames(n: nat): set<string>
    requires n <= NAME_COUNT
  {
    if n == 0 then {} else FirstNames(n - 1) + {Name(n - 1)}
  }

  lemma {:induction false} FirstNamesMeans(n: nat, name: string)
    requires n <= NAME_COUNT
    ensures name in FirstNames(n) <==> exists i: nat :: i < n && Name(i) == name
  {
    if n > 0 { FirstNamesMeans(n - 1, name); }
  }

  lemma {:induction false} FirstNamesCount(n: nat)
    requires n <= NAME_COUNT
    ensures |FirstNames(n)| == n
  {
    if n > 0 {
      FirstNamesCount(n - 1);
      NewNameIsNew(n - 1);
    }
  }

  lemma NewNameIsNew(n: nat)
    requires n < NAME_COUNT
    ensures Name(n) !in FirstNames(n)
  {
    FirstNamesMeans(n, Name(n));
    if i: nat :| i < n && Name(i) == Name(n) { NamesAreDistinct(i, n); }
  }

  lemma SubsetCount(a: set<string>, b: set<string>)
    requires a <= b
    ensures |a| <= |b|
  {
    assert b == a + (b - a);
  }

  /** While fewer than 52 names are in use or likely bad, the choice stays within the first 52. */
  lemma StaysWithinSafeNames(existing: set<string>, bad: set<string>, r: Option<string>)
    requires MayAllocate(existing, bad, r) && |existing + bad| < SAFE_COUNT
    ensures r.Some? && r.value in FirstNames(SAFE_COUNT)
  {
    FirstCleanIsFirst(existing, bad, 0);
    var k := FirstClean(existing, bad, 0);
    if k >= SAFE_COUNT {
      forall name | name in FirstNames(SAFE_COUNT) ensures name in existing + bad {
        FirstNamesMeans(SAFE_COUNT, name);
        var i: nat :| i < SAFE_COUNT && Name(i) == name;
        assert !Clean(existing, bad, i);
      }
      SubsetCount(FirstNames(SAFE_COUNT), existing + bad);
      FirstNamesCount(SAFE_COUNT);
    } else {
      FirstNamesMeans(SAFE_COUNT, Name(k));
    }
  }
}
