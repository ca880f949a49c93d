/** The command index refines a finite map, across expansions, and across iteration with removals. */
module HashIndex {
  import opened Options
  import opened Sequences
  import opened HashSpec

  // ----- operations -----

  function Expanded<V>(c: Config, t: Table<V>): Table<V> {
    if t.primeindex + 1 < |PRIMES| then
      var n := PRIMES[t.primeindex + 1];
      Table(Rehashed(t.buckets, n), t.primeindex + 1, t.count, c.limit(n))
    else t
  }

  /** The table an insertion links its entry into. */
  function MadeRoom<V>(c: Config, t: Table<V>): Table<V> {
    if t.count + 1 > t.loadlimit then Expanded(c, t) else t
  }

  /** arg_hashtable_insert, which does not look for an entry under the same key. */
  function Inserted<V>(c: Config, t: Table<V>, k: string, v: V): Table<V>
    requires |t.buckets| > 0
  {
    var u := MadeRoom(c, t);
    u.(buckets := Pushed(u.buckets, Entry(c.hash(k), k, v)), count := u.count + 1)
  }

  /** The position of the first entry with the hash and the key, or the length of the chain. */
  function FirstMatch<V>(chain: Chain<V>, h: nat, k: string): (j: nat)
    ensures j <= |chain| && forall i :: 0 <= i < j ==> !(chain[i].h == h && chain[i].key == k)
    ensures j < |chain| ==> chain[j].h == h && chain[j].key == k
  {
    if chain == [] || (chain[0].h == h && chain[0].key == k) then 0 else FirstMatch(chain[1..], h, k) + 1
  }

  function Cut<V>(chain: Chain<V>, j: nat): Chain<V>
    requires j < |chain|
  {
    chain[..j] + chain[j + 1..]
  }

  function CutAt<V>(b: Buckets<V>, i: nat, j: nat): Buckets<V>
    requires i < |b| && j < |b[i]|
  {
    b[i := Cut(b[i], j)]
  }

  function Removed<V>(c: Config, t: Table<V>, k: string): Table<V>
    requires |t.buckets| > 0
  {
    var i := BucketOf(c, |t.buckets|, k);
    var j := FirstMatch(t.buckets[i], c.hash(k), k);
    if j < |t.buckets[i]| && t.count > 0 then t.(buckets := CutAt(t.buckets, i, j), count := t.count - 1) else t
  }

  function Found<V>(c: Config, t: Table<V>, k: string): Option<V>
    requires |t.buckets| > 0
  {
    var i := BucketOf(c, |t.buckets|, k);
    var j := FirstMatch(t.buckets[i], c.hash(k), k);
    if j < |t.buckets[i]| then Some(t.buckets[i][j].value) else None
  }

  /** arg_cmd_register: replace an entry under the same name. */
  function Registered<V>(c: Config, t: Table<V>, k: string, v: V): Table<V>
    requires |t.buckets| > 0
  {
    Inserted(c, if Found(c, t, k).Some? then Removed(c, t, k) else t, k, v)
  }

  // ----- refinement -----

  predicate Valid<V>(c: Config, t: Table<V>) {
    && Placed(c, t.buckets) && |Flatten(t.buckets)| == t.count
    && t.primeindex < |PRIMES| && |t.buckets| == PRIMES[t.primeindex]
  }

  function Slot<V>(m: map<string, V>, k: string): seq<V> {
    if k in m then [m[k]] else []
  }

  /** The table holds exactly the map: one entry for each of its keys, and as many entries as it has keys. */
  ghost predicate Refines<V>(c: Config, t: Table<V>, m: map<string, V>) {
    Valid(c, t) && t.count == |m| && forall k :: Values(c, t.buckets, k) == Slot(m, k)
  }

  lemma ExpandedKeeps<V>(c: Config, t: Table<V>, m: map<string, V>)
    requires Refines(c, t, m)
    ensures Refines(c, Expanded(c, t), m)
  {
    if t.primeindex + 1 < |PRIMES| {
      RehashedValues(c, t.buckets, PRIMES[t.primeindex + 1]);
      forall k ensures Reversed(Values(c, t.buckets, k)) == Slot(m, k) {
        assert Values(c, t.buckets, k) == Slot(m, k);
      }
    }
  }

  lemma PushedRefines<V>(c: Config, t: Table<V>, m: map<string, V>, k: string, v: V)
    requires Refines(c, t, m) && k !in m
    ensures var e := Entry(c.hash(k), k, v);
            Refines(c, t.(buckets := Pushed(t.buckets, e), count := t.count + 1), m[k := v])
  {
    var e := Entry(c.hash(k), k, v);
    PushedPlaced(c, t.buckets, e);
    forall q ensures Values(c, Pushed(t.buckets, e), q) == Slot(m[k := v], q) {
      PushedValues(c, t.buckets, e, q);
      assert Values(c, t.buckets, q) == Slot(m, q);
    }
    assert (m[k := v]).Keys == m.Keys + {k};
    assert |m.Keys + {k}| == |m.Keys| + 1;
  }

  lemma InsertedRefines<V>(c: Config, t: Table<V>, m: map<string, V>, k: string, v: V)
    requires Refines(c, t, m) && k !in m
    ensures Refines(c, Inserted(c, t, k, v), m[k := v])
  {
    ExpandedKeeps(c, t, m);
    PushedRefines(c, MadeRoom(c, t), m, k, v);
  }

  lemma {:induction false} CutOf<V>(chain: Chain<V>, j: nat, k: string)
    requires j < |chain|
    ensures chain[j].key != k ==> Of(Cut(chain, j), k) == Of(chain, k)
    ensures chain[j].key == k ==> |Of(Cut(chain, j), k)| + 1 == |Of(chain, k)|
  {
    assert chain == chain[..j] + ([chain[j]] + chain[j + 1..]);
    assert ([chain[j]] + chain[j + 1..])[1..] == chain[j + 1..];
    OfConcat(chain[..j], [chain[j]] + chain[j + 1..], k);
    OfConcat(chain[..j], chain[j + 1..], k);
  }

  lemma CutPlaced<V>(c: Config, b: Buckets<V>, i: nat, j: nat)
    requires Placed(c, b) && i < |b| && j < |b[i]|
    ensures Placed(c, CutAt(b, i, j)) && |Flatten(CutAt(b, i, j))| == |Flatten(b)| - 1
  {
    FlattenAt(b, i);
    FlattenUpdate(b, i, Cut(b[i], j));
    var r := CutAt(b, i, j);
    forall p, q | 0 <= p < |r| && 0 <= q < |r[p]| ensures Fits(c, |r|, p, r[p][q]) {
      if p != i || q < j {
        assert Fits(c, |b|, p, b[p][q]);
      } else {
        assert Fits(c, |b|, p, b[p][q + 1]);
      }
    }
  }

  /** Unlinking one entry removes its key from the map and disturbs no other. */
  lemma CutRefines<V>(c: Config, t: Table<V>, m: map<string, V>, i: nat, j: nat)
    requires Refines(c, t, m) && i < |t.buckets| && j < |t.buckets[i]|
    ensures t.buckets[i][j].key in m && t.count > 0
    ensures Refines(c, t.(buckets := CutAt(t.buckets, i, j), count := t.count - 1), m - {t.buckets[i][j].key})
  {
    var b, key := t.buckets, t.buckets[i][j].key;
    var r := CutAt(b, i, j);
    CutPlaced(c, b, i, j);
    assert Fits(c, |b|, i, b[i][j]);
    CutOf(b[i], j, key);
    assert Values(c, b, key) == Slot(m, key);
    forall k ensures Values(c, r, k) == Slot(m - {key}, k) {
      assert Values(c, b, k) == Slot(m, k);
      CutOf(b[i], j, k);
    }
    assert (m - {key}).Keys == m.Keys - {key};
    assert |m.Keys - {key}| == |m.Keys| - 1;
  }

  lemma {:induction false} FirstMatchOf<V>(chain: Chain<V>, h: nat, k: string)
    requires forall j :: 0 <= j < |chain| && chain[j].key == k ==> chain[j].h == h
    ensures var j := FirstMatch(chain, h, k);
            if j == |chain| then Of(chain, k) == [] else Of(chain, k) != [] && Of(chain, k)[0] == chain[j].value
  {
    if chain != [] {
      FirstMatchOf(chain[1..], h, k);
    }
  }

  /** A lookup gives the first value under the key, if there is one. */
  lemma FoundIsFirst<V>(c: Config, t: Table<V>, k: string)
    requires Placed(c, t.buckets)
    ensures var vs := Values(c, t.buckets, k); Found(c, t, k) == if vs == [] then None else Some(vs[0])
  {
    var i := BucketOf(c, |t.buckets|, k);
    forall j | 0 <= j < |t.buckets[i]| && t.buckets[i][j].key == k ensures t.buckets[i][j].h == c.hash(k) {
      assert Fits(c, |t.buckets|, i, t.buckets[i][j]);
    }
    FirstMatchOf(t.buckets[i], c.hash(k), k);
  }

  function Get<V>(m: map<string, V>, k: string): Option<V> {
    if k in m then Some(m[k]) else None
  }

  lemma FoundRefines<V>(c: Config, t: Table<V>, m: map<string, V>, k: string)
    requires Refines(c, t, m)
    ensures Found(c, t, k) == Get(m, k)
  {
    FoundIsFirst(c, t, k);
    assert Values(c, t.buckets, k) == Slot(m, k);
  }

  lemma RemovedRefines<V>(c: Config, t: Table<V>, m: map<string, V>, k: string)
    requires Refines(c, t, m)
    ensures Refines(c, Removed(c, t, k), m - {k})
  {
    FoundRefines(c, t, m, k);
    var i := BucketOf(c, |t.buckets|, k);
    var j := FirstMatch(t.buckets[i], c.hash(k), k);
    if j < |t.buckets[i]| {
      CutRefines(c, t, m, i, j);
    } else {
      assert m - {k} == m;
    }
  }

  lemma RegisteredRefines<V>(c: Config, t: Table<V>, m: map<string, V>, k: string, v: V)
    requires Refines(c, t, m)
    ensures Refines(c, Registered(c, t, k, v), m[k := v])
  {
    FoundRefines(c, t, m, k);
    RemovedRefines(c, t, m, k);
    if Found(c, t, k).Some? {
      InsertedRefines(c, Removed(c, t, k), m - {k}, k, v);
      assert (m - {k})[k := v] == m[k := v];
    } else {
      InsertedRefines(c, t, m, k, v);
    }
  }

  /** Inserting twice under one key hides the first value until an expansion, which brings it back in front. */
  lemma DuplicatesSwapOnExpansion<V>(c: Config, b: Buckets<V>, k: string, v: V, w: V, n: nat)
    requires Placed(c, b) && Values(c, b, k) == [] && n > 0
    ensures var twice := Pushed(Pushed(b, Entry(c.hash(k), k, v)), Entry(c.hash(k), k, w));
            Values(c, twice, k) == [w, v] && Values(c, Rehashed(twice, n), k) == [v, w]
  {
    var e, f := Entry(c.hash(k), k, v), Entry(c.hash(k), k, w);
    PushedPlaced(c, b, e);
    PushedPlaced(c, Pushed(b, e), f);
    PushedValues(c, b, e, k);
    PushedValues(c, Pushed(b, e), f, k);
    RehashedValues(c, Pushed(Pushed(b, e), f), n);
    assert [w, v][1..] == [v] && [v][1..] == [];
    assert Reversed([w, v]) == [v, w];
  }

  // ----- whole runs -----

  datatype Op<V> = Register(key: string, value: V) | Unregister(key: string) | Lookup(key: string)

  function StepTable<V>(c: Config, t: Table<V>, op: Op<V>): Table<V>
    requires |t.buckets| > 0
  {
    match op
    case Register(k, v) => Registered(c, t, k, v)
    case Unregister(k) => Removed(c, t, k)
    case Lookup(_) => t
  }

  function StepMap<V>(m: map<string, V>, op: Op<V>): map<string, V> {
    match op
    case Register(k, v) => m[k := v]
    case Unregister(k) => m - {k}
    case Lookup(_) => m
  }

  lemma StepRefines<V>(c: Config, t: Table<V>, m: map<string, V>, op: Op<V>)
    requires Refines(c, t, m)
    ensures Refines(c, StepTable(c, t, op), StepMap(m, op)) && Found(c, t, op.key) == Get(m, op.key)
  {
    FoundRefines(c, t, m, op.key);
    match op
    case Register(k, v) => RegisteredRefines(c, t, m, k, v);
    case Unregister(k) => RemovedRefines(c, t, m, k);
    case Lookup(_) =>
  }

  /** The answers a table, or a map, gives about the key of each operation, just before it. */
  function TableAnswers<V>(c: Config, t: Table<V>, ops: seq<Op<V>>): seq<Option<V>>
    decreases |ops|
  {
    if ops == [] || |t.buckets| == 0 then []
    else [Found(c, t, ops[0].key)] + TableAnswers(c, StepTable(c, t, ops[0]), ops[1..])
  }

  function MapAnswers<V>(m: map<string, V>, ops: seq<Op<V>>): seq<Option<V>>
    decreases |ops|
  {
    if ops == [] then [] else [Get(m, ops[0].key)] + MapAnswers(StepMap(m, ops[0]), ops[1..])
  }

  /** No sequence of operations, with whatever expansions it causes, tells the table from the map. */
  lemma {:induction false} EveryRunRefines<V>(c: Config, t: Table<V>, m: map<string, V>, ops: seq<Op<V>>)
    requires Refines(c, t, m)
    ensures TableAnswers(c, t, ops) == MapAnswers(m, ops)
    decreases |ops|
  {
    if ops != [] {
      StepRefines(c, t, m, ops[0]);
      EveryRunRefines(c, StepTable(c, t, ops[0]), StepMap(m, ops[0]), ops[1..]);
    }
  }

  function Fresh<V>(c: Config, i: nat): Table<V>
    requires i < |PRIMES|
  {
    Table(Empty(PRIMES[i]), i, 0, c.limit(PRIMES[i]))
  }

  lemma FreshRefines<V>(c: Config, i: nat)
    requires i < |PRIMES|
    ensures Refines<V>(c, Fresh(c, i), map[])
  {
    FlattenEmpty(Empty<V>(PRIMES[i]));
  }
}
