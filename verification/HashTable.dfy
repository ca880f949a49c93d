/** The hash table and its iterator: linked chains changed in place, and a table replaced on expansion. */
module HashTable {
  import opened Options
  import opened HashSpec
  import opened HashIndex
  import opened HashIteration
  import opened HashNodes

  class Hashtable<V> {
    const c: Config
    var table: array<Node?<V>>
    var primeindex: nat
    var entrycount: nat
    var loadlimit: nat
    /** The nodes of each bucket, in the order of their links. */
    ghost var chains: seq<seq<Node<V>>>
    ghost var nodes: set<Node<V>>

    ghost function State(): Table<V>
      reads this
    {
      Table(Contents(chains), primeindex, entrycount, loadlimit)
    }

    ghost predicate Valid()
      reads this, table, nodes
    {
      HashIndex.Valid(c, State()) && Linked()
    }

    /** The table as it should be, holding exactly a map. */
    ghost predicate Holds(m: map<string, V>)
      reads this, table, nodes
    {
      Valid() && Refines(c, State(), m)
    }

    constructor (config: Config, pindex: nat)
      requires pindex < |PRIMES|
      ensures fresh(table) && c == config && State() == Fresh(config, pindex) && Holds(map[]) && nodes == {}
    {
      c := config;
      table := new Node?<V>[PRIMES[pindex]](i => null);
      primeindex, entrycount, loadlimit := pindex, 0, config.limit(PRIMES[pindex]);
      chains, nodes := seq(PRIMES[pindex], i => []), {};
      new;
      assert Contents(chains) == Empty<V>(PRIMES[pindex]);
      FreshRefines<V>(config, pindex);
    }

    /** An empty table of the least listed length above `minsize`, or null for a request that is too large. */
    static method Create(config: Config, minsize: nat) returns (h: Hashtable?<V>)
      ensures h == null <==> minsize > 0x4000_0000
      ensures h != null ==> fresh(h) && fresh(h.table) && h.c == config && h.Holds(map[])
      ensures h != null ==>
                && h.primeindex < |PRIMES| && PRIMES[h.primeindex] > minsize
                && forall i :: 0 <= i < h.primeindex ==> PRIMES[i] <= minsize
    {
      if minsize > 0x4000_0000 {
        return null;
      }
      var pindex := 0;
      while PRIMES[pindex] <= minsize
        invariant pindex < |PRIMES| && forall i :: 0 <= i < pindex ==> PRIMES[i] <= minsize
        decreases |PRIMES| - pindex
      {
        assert PRIMES[25] == 1610612741;
        pindex := pindex + 1;
      }
      h := new Hashtable<V>(config, pindex);
    }

    /**
     * Walk a chain for the first node with the hash and the key; `prev` is the node before it, null at the head, whose
     * link is the one that pE points to.
     */
    method Scan(head: Node?<V>, h: nat, k: string, ghost chain: seq<Node<V>>)
      returns (e: Node?<V>, prev: Node?<V>, ghost j: nat)
      requires Links(NextOf(nodes), chain) && head == At(chain, 0)
      ensures j == FirstMatch(Vals(chain), h, k) && e == At(chain, j) && prev == HashNodes.Before(chain, j)
    {
      e, prev, j := head, null, 0;
      ghost var es := Vals(chain);
      while e != null && !(e.h == h && e.key == k)
        invariant j <= |chain| && e == At(chain, j) && prev == HashNodes.Before(chain, j)
        invariant FirstMatch(es, h, k) == j + FirstMatch(es[j..], h, k)
        decreases |chain| - j
      {
        assert es[j..][1..] == es[j + 1..];
        prev, e, j := e, e.next, j + 1;
      }
    }

    /** arg_hashtable_search. */
    method Search(k: string) returns (r: Option<V>)
      requires Valid()
      ensures r == Found(c, State(), k)
    {
      var h := c.hash(k);
      var index := h % table.Length;
      var e, _, _ := Scan(table[index], h, k, chains[index]);
      r := if e != null then Some(e.value) else None;
    }

    /** The links spell out the chains. */
    ghost predicate Linked()
      reads this`table, this`chains, this`nodes, table, nodes
    {
      Spells(NextOf(nodes), table[..], chains)
    }

    /** The assignment through pE: the head of the bucket, or the link of the node before. */
    method Bypass(index: nat, prev: Node?<V>, e: Node<V>)
      requires index < table.Length && e in nodes && e != prev && (prev != null ==> prev in nodes)
      modifies table, nodes
      ensures e.next == old(e.next)
      ensures table[..] == if prev == null then old(table[..])[index := e.next] else old(table[..])
      ensures NextOf(nodes) == if prev == null then old(NextOf(nodes)) else old(NextOf(nodes))[prev := e.next]
    {
      if prev == null {
        table[index] := e.next;
      } else {
        prev.next := e.next;
      }
    }

    /** Take the j-th node of a bucket out of its chain. */
    method Unlink(index: nat, prev: Node?<V>, e: Node<V>, ghost j: nat)
      requires Linked() && Placed(c, Contents(chains)) && index < table.Length && j < |chains[index]|
      requires e == chains[index][j] && prev == HashNodes.Before(chains[index], j)
      modifies this`chains, table, nodes
      ensures Linked() && chains == CutNodeAt(old(chains), index, j) && e.next == old(e.next)
    {
      ghost var was, next := chains, NextOf(nodes);
      CutSpells(c, next, table[..], was, index, j);
      assert Links(next, was[index]) && Distinct(was[index]);
      Bypass(index, prev, e);
      chains := CutNodeAt(was, index, j);
    }

    /** Take a node out, and count it out. */
    method Detach(index: nat, prev: Node?<V>, e: Node<V>, ghost j: nat)
      requires Valid() && index < table.Length && j < |chains[index]|
      requires e == chains[index][j] && prev == HashNodes.Before(chains[index], j)
      modifies this`entrycount, this`chains, table, nodes
      ensures Linked() && chains == CutNodeAt(old(chains), index, j) && e.next == old(e.next)
      ensures old(entrycount) > 0 && State() == old(State()).(buckets := Contents(chains), count := old(entrycount) - 1)
    {
      FlattenAt(Contents(chains), index);
      Unlink(index, prev, e, j);
      entrycount := entrycount - 1;
    }

    /** arg_hashtable_remove. */
    method Remove(k: string)
      requires Valid()
      modifies this`entrycount, this`chains, table, nodes
      ensures Linked() && State() == Removed(c, old(State()), k)
    {
      var h := c.hash(k);
      var index := h % table.Length;
      var e, prev, j := Scan(table[index], h, k, chains[index]);
      RemovedNode(c, State(), chains, k, index, j);
      if e != null {
        Detach(index, prev, e, j);
      }
    }

    /** Relink the head of an old bucket at the head of its new one. */
    method MoveHead(i: nat, to: array<Node?<V>>, ghost a: seq<seq<Node<V>>>, ghost b: seq<seq<Node<V>>>)
      requires to != table && i < table.Length && to.Length > 0
      requires Placed(c, Contents(a)) && Spells(NextOf(nodes), table[..], a) && Spells(NextOf(nodes), to[..], b)
          && Apart(a, b)
      requires a[i] != []
      modifies table, to, nodes
      ensures Spells(NextOf(nodes), table[..], CutNodeAt(a, i, 0))
          && Spells(NextOf(nodes), to[..], PushedNode(b, a[i][0]))
      ensures Apart(CutNodeAt(a, i, 0), PushedNode(b, a[i][0]))
    {
      ghost var next := NextOf(nodes);
      MoveSpells(c, next, table[..], to[..], a, b, i);
      var e := table[i];
      table[i] := e.next;
      var index := e.h % to.Length;
      e.next := to[index];
      to[index] := e;
      assert NextOf(nodes) == next[e := old(to[index])];
    }

    /** The table is being moved into another: `a` is what is left of it, `b` what the other holds. */
    ghost predicate Moves(to: array<Node?<V>>, a: seq<seq<Node<V>>>, b: seq<seq<Node<V>>>)
      reads this`table, this`nodes, table, nodes, to
    {
      Spells(NextOf(nodes), table[..], a) && Spells(NextOf(nodes), to[..], b) && Apart(a, b)
    }

    /** Relink one bucket, head first. */
    method MoveBucket(
      i: nat, to: array<Node?<V>>,
      ghost a0: seq<seq<Node<V>>>, ghost b0: seq<seq<Node<V>>>, ghost moved0: Chain<V>, ghost all: Chain<V>)
      returns (ghost a: seq<seq<Node<V>>>, ghost b: seq<seq<Node<V>>>, ghost moved: Chain<V>)
      requires to != table && i < table.Length && Moving(c, a0, b0, i, moved0, all) && Moves(to, a0, b0)
      modifies table, to, nodes
      ensures Moving(c, a, b, i + 1, moved, all) && Moves(to, a, b) && |a| == |a0| && |b| == |b0|
    {
      a, b, moved := a0, b0, moved0;
      while table[i] != null
        invariant Moving(c, a, b, i, moved, all) && Moves(to, a, b) && |a| == |a0| && |b| == |b0|
        decreases |all| - |moved|
      {
        MovesOn(c, a, b, i, moved, all);
        MoveHead(i, to, a, b);
        a, b, moved := CutNodeAt(a, i, 0), PushedNode(b, a[i][0]), moved + [a[i][0].Val()];
      }
      BucketMoved(c, a, b, i, moved, all);
    }

    /** Relink every entry. */
    method MoveAll(to: array<Node?<V>>) returns (ghost b: seq<seq<Node<V>>>)
      requires to != table && to.Length > 0 && Placed(c, Contents(chains)) && Linked()
      requires forall k :: 0 <= k < to.Length ==> to[k] == null
      modifies table, to, nodes
      ensures |b| == to.Length && Contents(b) == Rehashed(Contents(chains), to.Length)
          && Spells(NextOf(nodes), to[..], b)
    {
      ghost var a, moved, all := chains, [], Flatten(Contents(chains));
      b := seq(to.Length, i => []);
      NoneMoved(c, a, b);
      for i := 0 to table.Length
        invariant Moving(c, a, b, i, moved, all) && Moves(to, a, b) && |a| == table.Length && |b| == to.Length
      {
        a, b, moved := MoveBucket(i, to, a, b, moved, all);
      }
      MovedAll(c, a, b, moved, all);
    }

    /** arg_hashtable_expand. */
    method Expand()
      requires Valid()
      modifies this`table, this`primeindex, this`loadlimit, this`chains, table, nodes
      ensures Linked() && State() == Expanded(c, old(State()))
      ensures table == old(table) || fresh(table)
    {
      if primeindex + 1 >= |PRIMES| {
        return;
      }
      var newsize := PRIMES[primeindex + 1];
      var newtable := new Node?<V>[newsize](i => null);
      ExpandedIs(c, State());
      ghost var b := MoveAll(newtable);
      Replace(newtable, b);
    }

    /** Adopt the new table. */
    method Replace(newtable: array<Node?<V>>, ghost b: seq<seq<Node<V>>>)
      requires Spells(NextOf(nodes), newtable[..], b)
      modifies this`table, this`primeindex, this`loadlimit, this`chains
      ensures table == newtable && Linked() && nodes == old(nodes)
      ensures State() == Table(Contents(b), old(primeindex) + 1, entrycount, c.limit(newtable.Length))
    {
      primeindex := primeindex + 1;
      table, chains := newtable, b;
      loadlimit := c.limit(newtable.Length);
    }

    /** Link a new node at the head of its bucket. */
    method PushFront(e: Node<V>)
      requires Linked() && table.Length > 0 && e !in nodes
      modifies this`chains, this`nodes, table, e
      ensures Linked() && chains == PushedNode(old(chains), e) && nodes == old(nodes) + {e}
    {
      ghost var next := NextOf(nodes);
      assert forall i :: 0 <= i < |chains| ==> Links(next, chains[i]);
      PushSpells(next, table[..], chains, e);
      var index := e.h % table.Length;
      e.next := table[index];
      table[index] := e;
      chains, nodes := PushedNode(chains, e), nodes + {e};
      assert NextOf(nodes) == next[e := old(table[index])];
    }

    /** arg_hashtable_insert. */
    method Insert(k: string, v: V)
      requires Valid()
      modifies this, table, nodes
      ensures Linked() && State() == Inserted(c, old(State()), k, v)
      ensures (table == old(table) || fresh(table)) && fresh(nodes - old(nodes))
    {
      if entrycount + 1 > loadlimit {
        Expand();
      }
      var e := new Node<V>(c.hash(k), k, v);
      PushedContents(chains, e);
      PushFront(e);
      entrycount := entrycount + 1;
    }

    /** arg_cmd_register. */
    method Register(k: string, v: V, ghost m: map<string, V>)
      requires Holds(m)
      modifies this, table, nodes
      ensures Holds(m[k := v]) && State() == Registered(c, old(State()), k, v)
      ensures (table == old(table) || fresh(table)) && fresh(nodes - old(nodes))
    {
      RegisteredRefines(c, State(), m, k, v);
      RemovedRefines(c, State(), m, k);
      var found := Search(k);
      if found.Some? {
        Remove(k);
      }
      Insert(k, v);
    }

    /** arg_cmd_unregister. */
    method Unregister(k: string, ghost m: map<string, V>)
      requires Holds(m)
      modifies this`entrycount, this`chains, table, nodes
      ensures Holds(m - {k})
    {
      RemovedRefines(c, State(), m, k);
      Remove(k);
    }

    /** The search loop of the iterator's creation and advance. */
    method FindBucket(i: nat) returns (j: nat)
      requires Linked() && i <= table.Length
      ensures j == NextBucket(Contents(chains), i)
    {
      j := i;
      while j < table.Length && table[j] == null
        invariant j <= table.Length && NextBucket(Contents(chains), i) == NextBucket(Contents(chains), j)
      {
        j := j + 1;
      }
    }
  }

  lemma ExpandedIs<V>(c: Config, t: Table<V>)
    requires t.primeindex + 1 < |PRIMES|
    ensures var n := PRIMES[t.primeindex + 1];
            Expanded(c, t) == Table(Rehashed(t.buckets, n), t.primeindex + 1, t.count, c.limit(n))
  {
  }

  /** Taking the first match out of its chain is removing the key; without one nothing is removed. */
  lemma RemovedNode<V>(c: Config, t: Table<V>, chains: seq<seq<Node<V>>>, k: string, i: nat, j: nat)
    requires HashIndex.Valid(c, t) && t.buckets == Contents(chains) && i == BucketOf(c, |t.buckets|, k)
    requires j == FirstMatch(Vals(chains[i]), c.hash(k), k)
    ensures j == |chains[i]| ==> Removed(c, t, k) == t
    ensures j < |chains[i]| ==>
              && t.count > 0
              && Removed(c, t, k) == t.(buckets := Contents(CutNodeAt(chains, i, j)), count := t.count - 1)
  {
    FlattenAt(t.buckets, i);
    if j < |chains[i]| {
      CutContents(chains, i, j);
    }
  }

  class Iterator<V> {
    const h: Hashtable<V>
    var index: nat
    var e: Node?<V>
    var parent: Node?<V>
    /** The position of e in its chain. */
    ghost var pos: nat

    ghost function At(): Cursor
      reads this
    {
      Cursor(index, pos)
    }

    /** The iterator is on an entry, with the node before it as parent, or at the end. */
    ghost predicate Proper()
      reads this, h
    {
      OnEntry(h.chains, index, pos, e, parent)
    }

    constructor (table: Hashtable<V>)
      requires table.Valid()
      ensures h == table && Proper() && At() == Start(table.State())
    {
      var first := table.table.Length;
      if table.entrycount != 0 {
        first := table.FindBucket(0);
      }
      h, index, pos, parent := table, first, 0, null;
      e := if first < table.table.Length then table.table[first] else null;
      new;
      StartVisitsAll(table.c, table.State());
    }

    /** arg_hashtable_itr_advance, from wherever the links of the current node lead. */
    method Step() returns (more: bool)
      requires h.Linked() && (e != null ==> index < h.table.Length)
      modifies this`index, this`e, this`parent
      ensures old(e) == null ==> !more && index == old(index) && e == null && parent == old(parent)
      ensures old(e) != null && old(e).next != null ==>
                more && index == old(index) && e == old(e).next && parent == old(e)
      ensures old(e) != null && old(e).next == null ==>
                && index == NextBucket(Contents(h.chains), old(index) + 1) && more == (index < |h.chains|)
                && parent == null && e == if more then h.chains[index][0] else null
    {
      if e == null {
        return false;
      }
      var next := e.next;
      if next != null {
        parent, e := e, next;
        return true;
      }
      parent := null;
      index := h.FindBucket(index + 1);
      more := index < h.table.Length;
      e := if more then h.table[index] else null;
    }

    /** arg_hashtable_itr_advance: false at the end. */
    method Advance() returns (more: bool)
      requires h.Linked() && Proper()
      modifies this
      ensures Proper() && HashIteration.Proper(Contents(h.chains), old(At()))
      ensures At() == Advanced(Contents(h.chains), old(At())) && more == (e != null)
    {
      ghost var was, left := At(), e;
      OnEntryIsProper(h.chains, index, pos, e, parent);
      if e != null {
        OnLinks(NextOf(h.nodes), h.table[..], h.chains, index, pos, e, parent);
      }
      more := Step();
      if left != null {
        AdvanceLands(h.chains, was, left, index, e, parent);
        pos := Advanced(Contents(h.chains), was).pos;
      }
    }

    /**
     * arg_hashtable_itr_remove. Advancing from the removed node makes it the parent, unless its chain ends there; the
     * parent is then put right.
     */
    method RemoveCurrent() returns (more: bool)
      requires h.Valid() && Proper() && e != null
      modifies this, h`entrycount, h`chains, h.table, h.nodes
      ensures HashIteration.Proper(old(h.State()).buckets, old(At())) && old(index) < |old(h.State()).buckets|
      ensures h.Linked() && h.State() == Unlinked(old(h.State()), old(At()))
      ensures Proper() && At() == AfterRemoval(old(h.State()).buckets, old(At())) && more == (e != null)
    {
      ghost var t, was, chains := h.State(), At(), h.chains;
      OnEntryIsProper(chains, index, pos, e, parent);
      Detach();
      ghost var removed, before, left := e, parent, h.State();
      more := StepFromRemoved();
      assert h.State() == left;
      RemovalLands(t, chains, was, removed, before, index, e, parent);
      pos := AfterRemoval(t.buckets, was).pos;
    }

    /** Advance from a node that is no longer in the table: it must not stay behind as the parent. */
    method StepFromRemoved() returns (more: bool)
      requires h.Linked() && e != null && index < h.table.Length && parent != e
      modifies this`index, this`e, this`parent
      ensures more == (e != null)
      ensures if old(e).next != null then index == old(index) && e == old(e).next && parent == old(parent)
              else && index == NextBucket(Contents(h.chains), old(index) + 1) && parent == null
                   && e == if index < |h.chains| then h.chains[index][0] else null
    {
      var removed, before := e, parent;
      more := Step();
      if parent == removed {
        parent := before;
      }
    }

    /** Take the current node out of the table; the iterator still stands on it. */
    method Detach()
      requires h.Valid() && Proper() && e != null
      modifies h`entrycount, h`chains, h.table, h.nodes
      ensures HashIteration.Proper(old(h.State()).buckets, At()) && index < |old(h.State()).buckets|
      ensures h.Linked() && h.State() == Unlinked(old(h.State()), At()) && index < |h.chains|
          && pos < |old(h.chains)[index]|
      ensures h.chains == CutNodeAt(old(h.chains), index, pos) && e.next == HashNodes.At(old(h.chains)[index], pos + 1)
      ensures parent != e
    {
      OnEntryIsProper(h.chains, index, pos, e, parent);
      UnlinkedNode(h.c, h.State(), h.chains, At());
      OnLinks(NextOf(h.nodes), h.table[..], h.chains, index, pos, e, parent);
      h.Detach(index, parent, e, pos);
    }
  }

  lemma UnlinkedNode<V>(c: Config, t: Table<V>, chains: seq<seq<Node<V>>>, it: Cursor)
    requires HashIndex.Valid(c, t) && t.buckets == Contents(chains) && it.index < |chains|
        && it.pos < |chains[it.index]|
    ensures t.count > 0
    ensures Unlinked(t, it) == t.(buckets := Contents(CutNodeAt(chains, it.index, it.pos)), count := t.count - 1)
  {
    FlattenAt(t.buckets, it.index);
    CutContents(chains, it.index, it.pos);
  }

  /** Where advancing from a removed node, with the parent put right, leads. */
  lemma RemovalLands<V>(
    t: Table<V>, chains: seq<seq<Node<V>>>, was: Cursor, removed: Node<V>, before: Node?<V>,
    index: nat, e: Node?<V>, parent: Node?<V>)
    requires t.buckets == Contents(chains) && HashIteration.Proper(t.buckets, was)
    requires OnNode(chains, was.index, was.pos, removed, before) && was.index < |chains|
        && was.pos < |chains[was.index]|
    requires var cut, next := CutNodeAt(chains, was.index, was.pos), HashNodes.At(chains[was.index], was.pos + 1);
             if next != null then index == was.index && e == next && parent == before
             else && index == NextBucket(Contents(cut), was.index + 1) && parent == null
                  && e == if index < |cut| then cut[index][0] else null
    ensures var cut, r := CutNodeAt(chains, was.index, was.pos), AfterRemoval(t.buckets, was);
            r.index == index && OnEntry(cut, index, r.pos, e, parent)
  {
    var cut := CutNodeAt(chains, was.index, was.pos);
    CutContents(chains, was.index, was.pos);
    RemoveMoves(t, was);
    NextBucketSame(t.buckets, Contents(cut), was.index + 1);
  }

  /** e and parent are the node at a position and the one before it; behind the last bucket both are null. */
  predicate OnNode<V>(chains: seq<seq<Node<V>>>, index: nat, pos: nat, e: Node?<V>, parent: Node?<V>) {
    if index < |chains| then e == HashNodes.At(chains[index], pos) && parent == HashNodes.Before(chains[index], pos)
    else e == null && parent == null
  }

  predicate OnEntry<V>(chains: seq<seq<Node<V>>>, index: nat, pos: nat, e: Node?<V>, parent: Node?<V>) {
    (index == |chains| ==> pos == 0) && index <= |chains| && (index < |chains| ==> pos < |chains[index]|)
    && OnNode(chains, index, pos, e, parent)
  }

  lemma OnEntryIsProper<V>(chains: seq<seq<Node<V>>>, index: nat, pos: nat, e: Node?<V>, parent: Node?<V>)
    requires OnEntry(chains, index, pos, e, parent)
    ensures HashIteration.Proper(Contents(chains), Cursor(index, pos)) && (e != null <==> index < |chains|)
  {
  }

  /** Where advancing leads. */
  lemma AdvanceLands<V>(
    chains: seq<seq<Node<V>>>, was: Cursor, left: Node<V>, index: nat, e: Node?<V>, parent: Node?<V>)
    requires was.index < |chains| && was.pos < |chains[was.index]| && left == chains[was.index][was.pos]
    requires var next := HashNodes.At(chains[was.index], was.pos + 1);
             if next != null then index == was.index && e == next && parent == left
             else && index == NextBucket(Contents(chains), was.index + 1) && parent == null
                  && e == if index < |chains| then chains[index][0] else null
    ensures HashIteration.Proper(Contents(chains), was)
    ensures var r := Advanced(Contents(chains), was); r.index == index && OnEntry(chains, index, r.pos, e, parent)
  {
  }

  lemma OnLinks<V>(
    next: map<Node<V>, Node?<V>>, table: seq<Node?<V>>, chains: seq<seq<Node<V>>>, index: nat, pos: nat, e: Node?<V>,
        parent: Node?<V>)
    requires Spells(next, table, chains) && OnNode(chains, index, pos, e, parent) && e != null
    ensures index < |chains| && pos < |chains[index]| && e == chains[index][pos] && e != parent
    ensures e in next && next[e] == HashNodes.At(chains[index], pos + 1)
  {
    assert Links(next, chains[index]) && Distinct(chains[index]);
  }
}
