/**
 * Client tokens for volume creation: the part of CreateDisk in pkg/cloud/cloud.go that picks the
 * idempotency token before it is hashed. A parameter-mismatch error burns a token, and the next attempts
 * append "-2", "-3" and so on to the volume's name.
 *
 * Create calls for one name are serialised by the controller's in-flight guard. The cache of token
 * numbers is taken not to lose entries.
 */
module ClientTokens {

  import opened Base

  // ----- strconv.Itoa -----

  function Digit(d: nat): char
    requires d < 10
  {
    ('0' as int + d) as char
  }

  predicate IsDigit(c: char) {
    '0' <= c <= '9'
  }

  function Itoa(n: nat): (s: string)
    ensures s != [] && forall i :: 0 <= i < |s| ==> IsDigit(s[i])
  {
    if n < 10 then [Digit(n)] else Itoa(n / 10) + [Digit(n % 10)]
  }

  /** The number a string of digits stands for. */
  function Atoi(s: string): nat
    requires forall i :: 0 <= i < |s| ==> IsDigit(s[i])
  {
    if s == [] then 0
    else
      assert IsDigit(s[|s| - 1]);
      Atoi(s[..|s| - 1]) * 10 + (s[|s| - 1] as int - '0' as int)
  }

  lemma {:induction false} ItoaRoundTrip(n: nat)
    ensures Atoi(Itoa(n)) == n
  {
    if n < 10 {
      assert Itoa(n)[..0] == [];
    } else {
      ItoaRoundTrip(n / 10);
      var s := Itoa(n);
      assert s[..|s| - 1] == Itoa(n / 10);
    }
  }

  // ----- Tokens -----

  /** The string that is hashed: the name, or the name and the latest token number. */
  function TokenBase(name: string, number: Option<nat>): string {
    if number.None? then name else name + "-" + Itoa(number.value)
  }

  /** One CreateDisk attempt for a name, and whether EC2 answered it with a parameter mismatch. */
  datatype Attempt = Attempt(name: string, mismatch: bool)

  function Cached(cache: map<string, nat>, name: string): Option<nat> {
    if name in cache then Some(cache[name]) else None
  }

  /** A mismatch stores the next number, starting at 2; every other outcome leaves the cache alone. */
  function CacheAfter(cache: map<string, nat>, a: Attempt): map<string, nat> {
    if !a.mismatch then cache
    else cache[a.name := if a.name in cache then cache[a.name] + 1 else 2]
  }

  class TokenCache {
    var latestClientTokens: map<string, nat>

    constructor ()
      ensures latestClientTokens == map[]
    {
      latestClientTokens := map[];
    }

    /** The token an attempt uses, and what its outcome does to the cache. */
    method Create(a: Attempt) returns (token: string)
      modifies this
      ensures token == TokenBase(a.name, Cached(old(latestClientTokens), a.name))
      ensures latestClientTokens == CacheAfter(old(latestClientTokens), a)
    {
      token := a.name;
      if a.name in latestClientTokens { token := token + "-" + Itoa(latestClientTokens[a.name]); }
      if a.mismatch {
        var nextTokenNumber := 2;
        if a.name in latestClientTokens { nextTokenNumber := latestClientTokens[a.name] + 1; }
        latestClientTokens := latestClientTokens[a.name := nextTokenNumber];
      }
    }
  }

  function Cache(history: seq<Attempt>): map<string, nat> {
    if history == [] then map[] else CacheAfter(Cache(history[..|history| - 1]), history[|history| - 1])
  }

  /** The token used by the attempt at this position of a history of attempts, of this and other names. */
  function TokenAt(history: seq<Attempt>, i: nat): string
    requires i < |history|
  {
    TokenBase(history[i].name, Cached(Cache(history[..i]), history[i].name))
  }

  function Mismatches(history: seq<Attempt>, name: string): nat {
    if history == [] then 0
    else
      var last := history[|history| - 1];
      Mismatches(history[..|history| - 1], name) + if last.name == name && last.mismatch then 1 else 0
  }

  /** The cached number is one more than the mismatches so far. */
  lemma {:induction false} CacheCountsMismatches(history: seq<Attempt>, name: string)
    ensures var m := Mismatches(history, name);
            Cached(Cache(history), name) == if m == 0 then None else Some(m + 1)
  {
    if history != [] { CacheCountsMismatches(history[..|history| - 1], name); }
  }

  function TokenAfter(name: string, mismatches: nat): string {
    TokenBase(name, if mismatches == 0 then None else Some(mismatches + 1))
  }

  lemma TokensOfOneNameDiffer(name: string, m: nat, n: nat)
    requires m != n
    ensures TokenAfter(name, m) != TokenAfter(name, n)
  {
    ItoaRoundTrip(m + 1);
    ItoaRoundTrip(n + 1);
    var a, b := TokenAfter(name, m), TokenAfter(name, n);
    if m > 0 && n > 0 {
      assert a[|name| + 1..] == Itoa(m + 1) && b[|name| + 1..] == Itoa(n + 1);
    } else {
      assert |a| != |b|;
    }
  }

  lemma {:induction false} MismatchesGrow(history: seq<Attempt>, i: nat, j: nat, name: string)
    requires i <= j <= |history|
    ensures Mismatches(history[..i], name) <= Mismatches(history[..j], name)
    ensures Mismatches(history[..i], name) == Mismatches(history[..j], name)
            <==> forall k :: i <= k < j ==> !(history[k].name == name && history[k].mismatch)
  {
    if i < j {
      MismatchesGrow(history, i, j - 1, name);
      assert history[..j][..j - 1] == history[..j - 1];
    }
  }

  /**
   * Two attempts for one name use the same token exactly when no attempt from the first up to the second
   * ended in a mismatch, whatever happened to other names and with whatever other outcomes.
   */
  lemma SameTokenIffNoMismatchBetween(history: seq<Attempt>, i: nat, j: nat)
    requires i <= j < |history| && history[i].name == history[j].name
    ensures TokenAt(history, i) == TokenAt(history, j)
            <==> forall k :: i <= k < j ==> !(history[k].name == history[i].name && history[k].mismatch)
  {
    var name := history[i].name;
    CacheCountsMismatches(history[..i], name);
    CacheCountsMismatches(history[..j], name);
    MismatchesGrow(history, i, j, name);
    var m, n := Mismatches(history[..i], name), Mismatches(history[..j], name);
    if m != n { TokensOfOneNameDiffer(name, m, n); }
  }

  // ----- Tokens of different names -----

  /** Where the last dash is, the name ends: suffixed tokens determine their name. */
  lemma SuffixedTokensDiffer(a: string, m: nat, b: string, n: nat)
    requires a != b
    ensures a + "-" + Itoa(m) != b + "-" + Itoa(n)
  {
    var s, t := a + "-" + Itoa(m), b + "-" + Itoa(n);
    if |s| == |t| {
      if |a| < |b| {
        assert t[|b|] == '-' && s[|b|] == Itoa(m)[|b| - |a| - 1];
      } else if |b| < |a| {
        assert s[|a|] == '-' && t[|a|] == Itoa(n)[|a| - |b| - 1];
      } else {
        assert s[..|a|] == a && t[..|a|] == b;
      }
    }
  }

  /**
   * Different names share a token exactly when one name is the other followed by the number the other has
   * reached: volume "x-2" on its first token and volume "x" after one mismatch.
   */
  lemma DifferentNamesCollideIff(a: string, m: nat, b: string, n: nat)
    requires a != b
    ensures TokenAfter(a, m) == TokenAfter(b, n) <==>
              || (m == 0 && n > 0 && a == b + "-" + Itoa(n + 1))
              || (n == 0 && m > 0 && b == a + "-" + Itoa(m + 1))
  {
    if m > 0 && n > 0 { SuffixedTokensDiffer(a, m + 1, b, n + 1); }
  }

  /** The token in a history is the one that belongs to the mismatches so far. */
  lemma TokenAtIsTokenAfter(history: seq<Attempt>, i: nat)
    requires i < |history|
    ensures TokenAt(history, i) == TokenAfter(history[i].name, Mismatches(history[..i], history[i].name))
  {
    CacheCountsMismatches(history[..i], history[i].name);
  }

  /** This attempt has had no mismatch, and its name is the other's with the number the other has reached. */
  predicate TakesTokenOf(history: seq<Attempt>, i: nat, j: nat)
    requires i < |history| && j < |history|
  {
    var m := Mismatches(history[..j], history[j].name);
    Mismatches(history[..i], history[i].name) == 0 && m > 0 && history[i].name == history[j].name + "-" + Itoa(m + 1)
  }

  /** Over every history, attempts for different names use one token exactly when one takes the other's. */
  lemma AttemptsCollideIff(history: seq<Attempt>, i: nat, j: nat)
    requires i < |history| && j < |history| && history[i].name != history[j].name
    ensures TokenAt(history, i) == TokenAt(history, j) <==> TakesTokenOf(history, i, j) || TakesTokenOf(history, j, i)
  {
    TokenAtIsTokenAfter(history, i);
    TokenAtIsTokenAfter(history, j);
    DifferentNamesCollideIff(history[i].name, Mismatches(history[..i], history[i].name),
                             history[j].name, Mismatches(history[..j], history[j].name));
  }

  /** It happens: after one mismatch, volume "x" uses the token that volume "x-2" starts with. */
  lemma AttemptsMayCollide()
    ensures var history := [Attempt("x", true), Attempt("x", false), Attempt("x-2", false)];
            TokenAt(history, 1) == TokenAt(history, 2)
  {
    var history := [Attempt("x", true), Attempt("x", false), Attempt("x-2", false)];
    assert history[..1] == [history[0]] && history[..2] == [history[0], history[1]];
    assert [history[0]][..0] == [] && [history[0], history[1]][..1] == [history[0]];
    assert Mismatches([history[0]], "x") == 1 && Mismatches([history[0]], "x-2") == 0;
    assert Mismatches(history[..2], "x-2") == 0;
    assert Itoa(2) == "2" && "x" + "-" + "2" == "x-2";
    assert TakesTokenOf(history, 2, 1);
    AttemptsCollideIff(history, 2, 1);
  }
}
