/**
 * The chained hash table behind the command index, as a value. The hash function and the load limit are arbitrary;
 * nothing below depends on how well they spread the keys.
 */
module HashSpec {
  import opened Options
  import opened Sequences

  datatype Entry<V> = Entry(h: nat, key: string, value: V)

  type Chain<V> = seq<Entry<V>>

  type Buckets<V> = seq<Chain<V>>

  datatype Config = Config(hash: string -> nat, limit: nat -> nat)

  datatype Table<V> = Table(buckets: Buckets<V>, primeindex: nat, count: nat, loadlimit: nat)

  type Length = n: nat | n > 0 witness 1

  const PRIMES: seq<Length> := [53, 97, 193, 389, 769, 1543, 3079, 6151, 12289,
                                24593, 49157, 98317, 196613, 393241, 786433, 1572869, 3145739, 6291469,
                                12582917, 25165843, 50331653, 100663319, 201326611, 402653189, 805306457, 1610612741]

  // ----- the view by key -----

  function One<V>(e: Entry<V>, k: string): seq<V> {
    if e.key == k then [e.value] else []
  }

  /** The values a chain holds for a key, in chain order. */
  function Of<V>(chain: Chain<V>, k: string): seq<V> {
    if chain == [] then [] else One(chain[0], k) + Of(chain[1..], k)
  }

  function BucketOf(c: Config, n: nat, k: string): (i: nat)
    requires n > 0
    ensures i < n
  {
    c.hash(k) % n
  }

  predicate Fits<V>(c: Config, n: nat, i: nat, e: Entry<V>)
    requires n > 0
  {
    e.h == c.hash(e.key) && e.h % n == i
  }

  /** Each entry sits in the bucket of its hash modulo the table length. */
  predicate Placed<V>(c: Config, b: Buckets<V>) {
    |b| > 0 && forall i, j :: 0 <= i < |b| && 0 <= j < |b[i]| ==> Fits(c, |b|, i, b[i][j])
  }

  function Values<V>(c: Config, b: Buckets<V>, k: string): seq<V>
    requires |b| > 0
  {
    Of(b[BucketOf(c, |b|, k)], k)
  }

  lemma Assoc<T>(a: seq<T>, b: seq<T>, c: seq<T>)
    ensures a + (b + c) == (a + b) + c
  {
  }

  lemma {:induction false} OfConcat<V>(a: Chain<V>, b: Chain<V>, k: string)
    ensures Of(a + b, k) == Of(a, k) + Of(b, k)
  {
    if a == [] {
      assert a + b == b;
    } else {
      OfConcat(a[1..], b, k);
      assert (a + b)[0] == a[0] && (a + b)[1..] == a[1..] + b;
      Assoc(One(a[0], k), Of(a[1..], k), Of(b, k));
    }
  }

  lemma {:induction false} OfOthers<V>(chain: Chain<V>, k: string)
    requires forall j :: 0 <= j < |chain| ==> chain[j].key != k
    ensures Of(chain, k) == []
  {
    if chain != [] {
      OfOthers(chain[1..], k);
    }
  }

  // ----- all entries -----

  /** All entries, in the order in which iteration and expansion visit them. */
  function Flatten<V>(b: Buckets<V>): Chain<V> {
    if b == [] then [] else b[0] + Flatten(b[1..])
  }

  /** The entries before, in and after one bucket. */
  lemma {:induction false} FlattenAt<V>(b: Buckets<V>, i: nat)
    requires i < |b|
    ensures Flatten(b) == Flatten(b[..i]) + b[i] + Flatten(b[i + 1..])
  {
    if i > 0 {
      FlattenAt(b[1..], i - 1);
      assert b[1..][..i - 1] == b[..i][1..] && b[1..][i..] == b[i + 1..];
      Regroup(b[0], Flatten(b[1..][..i - 1]), b[i], Flatten(b[i + 1..]));
    }
  }

  lemma Regroup<T>(a: seq<T>, b: seq<T>, c: seq<T>, d: seq<T>)
    ensures a + (b + c + d) == (a + b) + c + d
  {
  }

  lemma FlattenUpdate<V>(b: Buckets<V>, i: nat, chain: Chain<V>)
    requires i < |b|
    ensures Flatten(b[i := chain]) == Flatten(b[..i]) + chain + Flatten(b[i + 1..])
  {
    var r := b[i := chain];
    FlattenAt(r, i);
    assert r[..i] == b[..i] && r[i + 1..] == b[i + 1..];
  }

  /** No bucket but a key's own holds it. */
  predicate Without<V>(b: Buckets<V>, k: string) {
    forall i, j :: 0 <= i < |b| && 0 <= j < |b[i]| ==> b[i][j].key != k
  }

  lemma {:induction false} FlattenWithout<V>(b: Buckets<V>, k: string)
    requires Without(b, k)
    ensures Of(Flatten(b), k) == []
  {
    if b != [] {
      assert forall j :: 0 <= j < |b[0]| ==> b[0][j].key != k;
      OfOthers(b[0], k);
      FlattenWithout(b[1..], k);
      OfConcat(b[0], Flatten(b[1..]), k);
    }
  }

  /** The view by key is the view of all entries. */
  lemma ValuesOfAll<V>(c: Config, b: Buckets<V>, k: string)
    requires Placed(c, b)
    ensures Values(c, b, k) == Of(Flatten(b), k)
  {
    var i := BucketOf(c, |b|, k);
    forall m, j | 0 <= m < |b| && 0 <= j < |b[m]| && m != i ensures b[m][j].key != k {
      assert Fits(c, |b|, m, b[m][j]);
    }
    FlattenWithout(b[..i], k);
    FlattenWithout(b[i + 1..], k);
    FlattenAt(b, i);
    OfConcat(Flatten(b[..i]) + b[i], Flatten(b[i + 1..]), k);
    OfConcat(Flatten(b[..i]), b[i], k);
  }

  // ----- linking an entry, and expansion -----

  /** Put an entry at the head of its chain. */
  function Pushed<V>(b: Buckets<V>, e: Entry<V>): Buckets<V>
    requires |b| > 0
  {
    b[e.h % |b| := [e] + b[e.h % |b|]]
  }

  lemma PushedPlaced<V>(c: Config, b: Buckets<V>, e: Entry<V>)
    requires Placed(c, b) && e.h == c.hash(e.key)
    ensures Placed(c, Pushed(b, e)) && |Flatten(Pushed(b, e))| == |Flatten(b)| + 1
  {
    FlattenAt(b, e.h % |b|);
    FlattenUpdate(b, e.h % |b|, [e] + b[e.h % |b|]);
    var r := Pushed(b, e);
    forall i, j | 0 <= i < |r| && 0 <= j < |r[i]| ensures Fits(c, |r|, i, r[i][j]) {
      if i != e.h % |b| {
        assert Fits(c, |b|, i, b[i][j]);
      } else if j > 0 {
        assert Fits(c, |b|, i, b[i][j - 1]);
      }
    }
  }

  lemma PushedValues<V>(c: Config, b: Buckets<V>, e: Entry<V>, k: string)
    requires Placed(c, b) && e.h == c.hash(e.key)
    ensures Values(c, Pushed(b, e), k) == One(e, k) + Values(c, b, k)
  {
    var i := e.h % |b|;
    assert ([e] + b[i])[1..] == b[i];
  }

  function Linked<V>(b: Buckets<V>, es: Chain<V>): (r: Buckets<V>)
    requires |b| > 0
    ensures |r| == |b|
    decreases |es|
  {
    if es == [] then b else Pushed(Linked(b, es[..|es| - 1]), es[|es| - 1])
  }

  predicate Hashed<V>(c: Config, es: Chain<V>) {
    forall j :: 0 <= j < |es| ==> es[j].h == c.hash(es[j].key)
  }

  lemma {:induction false} LinkedPlaced<V>(c: Config, b: Buckets<V>, es: Chain<V>)
    requires Placed(c, b) && Hashed(c, es)
    ensures Placed(c, Linked(b, es)) && |Flatten(Linked(b, es))| == |Flatten(b)| + |es|
    decreases |es|
  {
    if es != [] {
      LinkedPlaced(c, b, es[..|es| - 1]);
      PushedPlaced(c, Linked(b, es[..|es| - 1]), es[|es| - 1]);
    }
  }

  lemma {:induction false} LinkedValues<V>(c: Config, b: Buckets<V>, es: Chain<V>, k: string)
    requires Placed(c, b) && Hashed(c, es)
    ensures Values(c, Linked(b, es), k) == Reversed(Of(es, k)) + Values(c, b, k)
    decreases |es|
  {
    if es != [] {
      var before, e := es[..|es| - 1], es[|es| - 1];
      LinkedPlaced(c, b, before);
      LinkedValues(c, b, before, k);
      PushedValues(c, Linked(b, before), e, k);
      assert es == before + [e] && Of([e], k) == One(e, k);
      OfConcat(before, [e], k);
      ReversedConcat(Of(before, k), One(e, k));
      ReversedShort(One(e, k));
      Assoc(One(e, k), Reversed(Of(before, k)), Values(c, b, k));
    }
  }

  function Empty<V>(n: nat): (b: Buckets<V>)
    ensures |b| == n && forall i :: 0 <= i < n ==> b[i] == []
  {
    seq(n, i => [])
  }

  lemma {:induction false} FlattenEmpty<V>(b: Buckets<V>)
    requires forall i :: 0 <= i < |b| ==> b[i] == []
    ensures Flatten(b) == []
  {
    if b != [] {
      FlattenEmpty(b[1..]);
    }
  }

  /** Move every entry, in visiting order, to the head of its chain in an empty table of another size. */
  function Rehashed<V>(b: Buckets<V>, n: nat): (r: Buckets<V>)
    requires n > 0
    ensures |r| == n
  {
    Linked(Empty(n), Flatten(b))
  }

  lemma {:induction false} FlattenHashed<V>(c: Config, n: nat, off: nat, b: Buckets<V>)
    requires n > 0 && forall i, j :: 0 <= i < |b| && 0 <= j < |b[i]| ==> Fits(c, n, off + i, b[i][j])
    ensures Hashed(c, Flatten(b))
    decreases |b|
  {
    if b != [] {
      forall i, j | 0 <= i < |b[1..]| && 0 <= j < |b[1..][i]| ensures Fits(c, n, off + 1 + i, b[1..][i][j]) {
        assert Fits(c, n, off + (i + 1), b[i + 1][j]);
      }
      FlattenHashed(c, n, off + 1, b[1..]);
      forall j | 0 <= j < |b[0]| ensures b[0][j].h == c.hash(b[0][j].key) {
        assert Fits(c, n, off + 0, b[0][j]);
      }
    }
  }

  /** Expansion keeps every entry, and reverses the entries of one key among themselves. */
  lemma RehashedValues<V>(c: Config, b: Buckets<V>, n: nat)
    requires Placed(c, b) && n > 0
    ensures Placed(c, Rehashed(b, n)) && |Flatten(Rehashed(b, n))| == |Flatten(b)|
    ensures forall k :: Values(c, Rehashed(b, n), k) == Reversed(Values(c, b, k))
  {
    FlattenHashed(c, |b|, 0, b);
    var e := Empty<V>(n);
    FlattenEmpty(e);
    LinkedPlaced(c, e, Flatten(b));
    forall k ensures Values(c, Rehashed(b, n), k) == Reversed(Values(c, b, k)) {
      LinkedValues(c, e, Flatten(b), k);
      ValuesOfAll(c, b, k);
    }
  }
}
