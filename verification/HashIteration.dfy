/** Walking the table with an iterator, removing entries on the way. */
module HashIteration {
  import opened Options
  import opened HashSpec
  import opened HashIndex

  /** The current entry is `buckets[index][pos]`; at the end, `index` is the table length. */
  datatype Cursor = Cursor(index: nat, pos: nat)

  /** The first non-empty bucket from i on, or the table length. */
  function NextBucket<V>(b: Buckets<V>, i: nat): (j: nat)
    requires i <= |b|
    ensures i <= j <= |b| && (j < |b| ==> b[j] != []) && forall m :: i <= m < j ==> b[m] == []
    decreases |b| - i
  {
    if i == |b| || b[i] != [] then i else NextBucket(b, i + 1)
  }

  predicate Ended<V>(b: Buckets<V>, it: Cursor) {
    it.index >= |b|
  }

  predicate Proper<V>(b: Buckets<V>, it: Cursor) {
    it == Cursor(|b|, 0) || (it.index < |b| && it.pos < |b[it.index]|)
  }

  function Current<V>(b: Buckets<V>, it: Cursor): Entry<V>
    requires Proper(b, it) && !Ended(b, it)
  {
    b[it.index][it.pos]
  }

  function Start<V>(t: Table<V>): Cursor {
    if t.count == 0 then Cursor(|t.buckets|, 0) else Cursor(NextBucket(t.buckets, 0), 0)
  }

  function Advanced<V>(b: Buckets<V>, it: Cursor): Cursor
    requires Proper(b, it)
  {
    if Ended(b, it) then it
    else if it.pos + 1 < |b[it.index]| then Cursor(it.index, it.pos + 1)
    else Cursor(NextBucket(b, it.index + 1), 0)
  }

  function Unlinked<V>(t: Table<V>, it: Cursor): Table<V>
    requires Proper(t.buckets, it) && !Ended(t.buckets, it)
  {
    t.(buckets := CutAt(t.buckets, it.index, it.pos), count := if t.count > 0 then t.count - 1 else 0)
  }

  /** arg_hashtable_itr_remove: the successor of the removed entry, which has moved into its place. */
  function AfterRemoval<V>(b: Buckets<V>, it: Cursor): Cursor
    requires Proper(b, it) && !Ended(b, it)
  {
    if it.pos + 1 < |b[it.index]| then it else Cursor(NextBucket(b, it.index + 1), 0)
  }

  // ----- what has been visited and what has not -----

  function Before<V>(b: Buckets<V>, it: Cursor): Chain<V>
    requires Proper(b, it)
  {
    if Ended(b, it) then Flatten(b) else Flatten(b[..it.index]) + b[it.index][..it.pos]
  }

  function Rest<V>(b: Buckets<V>, it: Cursor): Chain<V>
    requires Proper(b, it)
  {
    if Ended(b, it) then [] else b[it.index][it.pos..] + Flatten(b[it.index + 1..])
  }

  lemma {:induction false} SkipEmpty<V>(b: Buckets<V>, i: nat)
    requires i <= |b|
    ensures var it := Cursor(NextBucket(b, i), 0);
            Proper(b, it) && Rest(b, it) == Flatten(b[i..]) && Before(b, it) == Flatten(b[..i])
    decreases |b| - i
  {
    if i == |b| {
      assert b[..i] == b;
    } else {
      assert b[i..][1..] == b[i + 1..];
      if b[i] == [] {
        SkipEmpty(b, i + 1);
        FlattenAt(b[..i + 1], i);
        assert b[..i + 1][..i] == b[..i];
      }
    }
  }

  /** Leaving the last entry of a bucket. */
  lemma PastBucket<V>(b: Buckets<V>, i: nat)
    requires i < |b|
    ensures var it := Cursor(NextBucket(b, i + 1), 0);
            Proper(b, it) && Rest(b, it) == Flatten(b[i + 1..]) && Before(b, it) == Flatten(b[..i]) + b[i]
  {
    SkipEmpty(b, i + 1);
    FlattenAt(b[..i + 1], i);
    assert b[..i + 1][..i] == b[..i] && b[..i + 1][i + 1..] == [];
  }

  lemma StartVisitsAll<V>(c: Config, t: Table<V>)
    requires Valid(c, t)
    ensures Proper(t.buckets, Start(t)) && Rest(t.buckets, Start(t)) == Flatten(t.buckets)
        && Before(t.buckets, Start(t)) == []
  {
    SkipEmpty(t.buckets, 0);
    assert t.buckets[0..] == t.buckets && t.buckets[..0] == [];
  }

  lemma SplitChain<V>(before: Chain<V>, chain: Chain<V>, j: nat, after: Chain<V>)
    requires j < |chain|
    ensures chain[j..] + after == [chain[j]] + (chain[j + 1..] + after)
    ensures before + chain[..j + 1] == (before + chain[..j]) + [chain[j]]
    ensures j + 1 == |chain| ==> chain[j + 1..] + after == after && chain[..j + 1] == chain
  {
  }

  lemma AdvanceMoves<V>(b: Buckets<V>, it: Cursor)
    requires Proper(b, it) && !Ended(b, it)
    ensures var e, r := Current(b, it), Advanced(b, it);
            Proper(b, r) && Rest(b, it) == [e] + Rest(b, r) && Before(b, r) == Before(b, it) + [e]
  {
    SplitChain(Flatten(b[..it.index]), b[it.index], it.pos, Flatten(b[it.index + 1..]));
    if it.pos + 1 == |b[it.index]| {
      PastBucket(b, it.index);
    }
  }

  lemma NextBucketSame<V>(b: Buckets<V>, d: Buckets<V>, i: nat)
    requires i <= |b| == |d| && forall m :: i <= m < |b| ==> b[m] == d[m]
    ensures NextBucket(b, i) == NextBucket(d, i)
    decreases |b| - i
  {
  }

  lemma RemoveMoves<V>(t: Table<V>, it: Cursor)
    requires Proper(t.buckets, it) && !Ended(t.buckets, it)
    ensures var b, e, r, next := t.buckets, Current(t.buckets, it), Unlinked(t, it).buckets,
        AfterRemoval(t.buckets, it);
            Proper(r, next) && Rest(b, it) == [e] + Rest(r, next) && Before(r, next) == Before(b, it)
  {
    var b, i, j := t.buckets, it.index, it.pos;
    var r, chain := CutAt(b, i, j), b[i];
    assert r[..i] == b[..i] && r[i + 1..] == b[i + 1..];
    assert chain[j..] == [chain[j]] + chain[j + 1..];
    if j + 1 < |chain| {
      assert r[i][j..] == chain[j + 1..] && r[i][..j] == chain[..j];
    } else {
      NextBucketSame(b, r, i + 1);
      PastBucket(r, i);
      assert r[i] == chain[..j] && chain[j + 1..] == [];
    }
  }

  // ----- a whole iteration -----

  datatype Walk<V> = Walk(table: Table<V>, cursor: Cursor, visited: Chain<V>)

  /** Visit the current entry, then remove it or pass on. */
  function Visit<V>(w: Walk<V>, remove: bool): Walk<V>
    requires Proper(w.table.buckets, w.cursor) && !Ended(w.table.buckets, w.cursor)
  {
    var b := w.table.buckets;
    if remove then Walk(Unlinked(w.table, w.cursor), AfterRemoval(b, w.cursor), w.visited + [Current(b, w.cursor)])
    else Walk(w.table, Advanced(b, w.cursor), w.visited + [Current(b, w.cursor)])
  }

  /** The entries that a series of decisions keeps. */
  function Kept<V>(es: Chain<V>, removes: seq<bool>): Chain<V>
    requires |es| == |removes|
  {
    if es == [] then [] else (if removes[0] then [] else [es[0]]) + Kept(es[1..], removes[1..])
  }

  lemma VisitMoves<V>(w: Walk<V>, remove: bool)
    requires Proper(w.table.buckets, w.cursor) && !Ended(w.table.buckets, w.cursor)
    ensures var b, it, v, e := w.table.buckets, w.cursor, Visit(w, remove), Current(w.table.buckets, w.cursor);
            && Proper(v.table.buckets, v.cursor) && v.visited == w.visited + [e]
            && Rest(b, it) == [e] + Rest(v.table.buckets, v.cursor)
            && Before(v.table.buckets, v.cursor) == Before(b, it) + if remove then [] else [e]
  {
    if remove {
      RemoveMoves(w.table, w.cursor);
      assert Before(w.table.buckets, w.cursor) + [] == Before(w.table.buckets, w.cursor);
    } else {
      AdvanceMoves(w.table.buckets, w.cursor);
    }
  }

  /** Follow the decisions until they or the entries run out. */
  function Walked<V>(w: Walk<V>, removes: seq<bool>): Walk<V>
    requires Proper(w.table.buckets, w.cursor)
    decreases |removes|
  {
    if removes == [] || Ended(w.table.buckets, w.cursor) then w
    else
      VisitMoves(w, removes[0]);
      Walked(Visit(w, removes[0]), removes[1..])
  }

  /** A walk that visited `rest` and left `before` and what the decisions keep of `rest`. */
  ghost predicate Complete<V>(r: Walk<V>, visited: Chain<V>, before: Chain<V>, rest: Chain<V>, removes: seq<bool>)
    requires |rest| == |removes|
  {
    && Ended(r.table.buckets, r.cursor)
    && r.visited == visited + rest
    && Flatten(r.table.buckets) == before + Kept(rest, removes)
  }

  lemma CompleteStep<V>(r: Walk<V>, visited: Chain<V>, before: Chain<V>, e: Entry<V>, rest: Chain<V>,
      removes: seq<bool>)
    requires |removes| == |rest| + 1
    requires Complete(r, visited + [e], before + if removes[0] then [] else [e], rest, removes[1..])
    ensures Complete(r, visited, before, [e] + rest, removes)
  {
    var all, first := [e] + rest, if removes[0] then [] else [e];
    assert all[1..] == rest;
    assert visited + all == visited + [e] + rest;
    assert before + (first + Kept(rest, removes[1..])) == before + first + Kept(rest, removes[1..]);
  }

  /** Whichever entries are removed on the way, every one is visited once, and exactly the others remain, in order. */
  lemma {:induction false} WalkVisitsEach<V>(w: Walk<V>, removes: seq<bool>)
    requires Proper(w.table.buckets, w.cursor) && |removes| == |Rest(w.table.buckets, w.cursor)|
    ensures Complete(Walked(w, removes), w.visited, Before(w.table.buckets, w.cursor), Rest(w.table.buckets, w.cursor),
        removes)
    decreases |removes|
  {
    var b, it := w.table.buckets, w.cursor;
    if Ended(b, it) {
      assert Before(b, it) + [] == Before(b, it) && w.visited + [] == w.visited;
    } else {
      var v := Visit(w, removes[0]);
      VisitMoves(w, removes[0]);
      WalkVisitsEach(v, removes[1..]);
      CompleteStep(Walked(v, removes[1..]), w.visited, Before(b, it), Current(b, it), Rest(v.table.buckets, v.cursor),
          removes);
    }
  }

  /** The map that is left when the keys of the removed entries are gone. */
  function Without<V>(m: map<string, V>, es: Chain<V>, removes: seq<bool>): map<string, V>
    requires |es| == |removes|
  {
    if es == [] then m
    else Without(if removes[0] then m - {es[0].key} else m, es[1..], removes[1..])
  }

  lemma {:induction false} WalkRefines<V>(c: Config, w: Walk<V>, m: map<string, V>, removes: seq<bool>)
    requires Refines(c, w.table, m)
    requires Proper(w.table.buckets, w.cursor) && |removes| == |Rest(w.table.buckets, w.cursor)|
    ensures Refines(c, Walked(w, removes).table, Without(m, Rest(w.table.buckets, w.cursor), removes))
    decreases |removes|
  {
    var b, it := w.table.buckets, w.cursor;
    if !Ended(b, it) {
      VisitMoves(w, removes[0]);
      if removes[0] {
        CutRefines(c, w.table, m, it.index, it.pos);
      }
      var v := Visit(w, removes[0]);
      assert Rest(b, it)[1..] == Rest(v.table.buckets, v.cursor);
      WalkRefines(c, v, if removes[0] then m - {Rest(b, it)[0].key} else m, removes[1..]);
    }
  }

  /** From a fresh iterator: all entries, once each, and a table that refines the map without the removed keys. */
  lemma IterationIsExact<V>(c: Config, t: Table<V>, m: map<string, V>, removes: seq<bool>)
    requires Refines(c, t, m) && |removes| == t.count
    ensures Proper(t.buckets, Start(t))
    ensures var r := Walked(Walk(t, Start(t), []), removes);
            && Ended(r.table.buckets, r.cursor) && r.visited == Flatten(t.buckets)
            && Flatten(r.table.buckets) == Kept(Flatten(t.buckets), removes)
            && Refines(c, r.table, Without(m, Flatten(t.buckets), removes))
  {
    StartVisitsAll(c, t);
    WalkVisitsEach(Walk(t, Start(t), []), removes);
    assert [] + Flatten(t.buckets) == Flatten(t.buckets);
    WalkRefines(c, Walk(t, Start(t), []), m, removes);
  }

  /** The entries visited are exactly the pairs of the map. */
  lemma VisitedArePairs<V>(c: Config, t: Table<V>, m: map<string, V>, k: string)
    requires Refines(c, t, m)
    ensures Of(Flatten(t.buckets), k) == Slot(m, k)
  {
    ValuesOfAll(c, t.buckets, k);
    assert Values(c, t.buckets, k) == Slot(m, k);
  }
}
