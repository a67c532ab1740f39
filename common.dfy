/** Shared vocabulary of both ballot-box variants: an option type, the
    cryptographic and encoding primitives the handlers call (as opaque
    total functions, not their internals), and Python's `collections.Counter`
    over a sequence with the sum of its counts. */
module Common {

  datatype Option<+T> = None | Some(value: T)

  type Bytes = seq<bv8>

  /** How `VerifyKey(pk).verify(msg, sig)` of PyNaCl ends: it returns, it
      raises `BadSignatureError`, or it raises another exception (a key or a
      signature of the wrong length). */
  datatype VerifyOutcome = Verified | BadSignature | Malformed

  /** The library functions the handlers call, as parameters of the model:
      `base64.b64decode` (None where it raises), `str.encode` (UTF-8),
      `hashlib.sha256(..).hexdigest()` and Ed25519 verification under a
      public key (key bytes, message bytes, signature bytes). */
  datatype Crypto = Crypto(
    b64decode: string -> Option<Bytes>,
    utf8: string -> Bytes,
    sha256Hex: Bytes -> string,
    verify: (Bytes, Bytes, Bytes) -> VerifyOutcome)

  /** `Counter(s)`: every element of `s` mapped to the number of times it
      occurs; elements that do not occur are absent. */
  function Counter<T(!new)>(s: seq<T>): (r: map<T, nat>)
    ensures forall x :: x in r <==> x in s
    ensures forall x :: x in r ==> r[x] == multiset(s)[x]
  {
    if s == [] then map[]
    else
      var init, last := s[..|s| - 1], s[|s| - 1];
      assert s == init + [last];
      var m := Counter(init);
      m[last := if last in m then m[last] + 1 else 1]
  }

  ghost function Pick<K>(m: map<K, nat>): K
    requires m != map[]
  {
    var k :| k in m; k
  }

  /** The sum of all counts held in `m`. */
  ghost function SumValues<K>(m: map<K, nat>): nat
    decreases |m|
  {
    if m == map[] then 0
    else
      var k := Pick(m);
      assert |m - {k}| < |m| by { assert (m - {k}).Keys == m.Keys - {k}; }
      m[k] + SumValues(m - {k})
  }

  /** The sum does not depend on the key the definition happens to pick. */
  lemma {:induction false} SumValuesRemove<K>(m: map<K, nat>, k: K)
    requires k in m
    ensures SumValues(m) == m[k] + SumValues(m - {k})
    decreases |m|
  {
    var j := Pick(m);
    if j != k {
      assert (m - {k}).Keys == m.Keys - {k};
      assert (m - {j}).Keys == m.Keys - {j};
      SumValuesRemove(m - {j}, k);
      SumValuesRemove(m - {k}, j);
      assert m - {j} - {k} == m - {k} - {j};
    }
  }

  /** Counting one more occurrence of `k` adds one to the sum. */
  lemma SumValuesIncrement<K>(m: map<K, nat>, k: K)
    ensures SumValues(m[k := if k in m then m[k] + 1 else 1]) == SumValues(m) + 1
  {
    var m' := m[k := if k in m then m[k] + 1 else 1];
    SumValuesRemove(m', k);
    if k in m {
      SumValuesRemove(m, k);
      assert m' - {k} == m - {k};
    } else {
      assert m' - {k} == m;
    }
  }

  /** The counts of a `Counter` add up to the length of its input. */
  lemma {:induction false} CounterTotal<T(!new)>(s: seq<T>)
    ensures SumValues(Counter(s)) == |s|
  {
    if s != [] {
      var init, last := s[..|s| - 1], s[|s| - 1];
      CounterTotal(init);
      SumValuesIncrement(Counter(init), last);
    }
  }

  /** A sequence without repetitions has as many distinct elements as it is long. */
  lemma {:induction false} DistinctCard<T>(s: seq<T>)
    requires forall i, j :: 0 <= i < j < |s| ==> s[i] != s[j]
    ensures |set x | x in s| == |s|
  {
    if s != [] {
      var init, last := s[..|s| - 1], s[|s| - 1];
      DistinctCard(init);
      assert (set x | x in s) == (set x | x in init) + {last};
      assert last !in (set x | x in init);
    }
  }
}
