/** Chains of linked nodes, and the sequences of entries they spell out. */
module HashNodes {
  import opened HashSpec
  import opened HashIndex

  /** arg_hashtable_entry. Only the link changes after creation. */
  class Node<V> {
    const h: nat
    const key: string
    const value: V
    var next: Node?<V>

    constructor (hash: nat, k: string, v: V)
      ensures h == hash && key == k && value == v && next == null
    {
      h, key, value, next := hash, k, v, null;
    }

    function Val(): Entry<V> {
      Entry(h, key, value)
    }
  }

  /** The links of some nodes, as a value. */
  ghost function NextOf<V>(ns: set<Node<V>>): (next: map<Node<V>, Node?<V>>)
    reads ns
    ensures next.Keys == ns
  {
    map n | n in ns :: n.next
  }

  /** The j-th node of a chain, or null behind its end. */
  function At<V>(chain: seq<Node<V>>, j: nat): Node?<V> {
    if j < |chain| then chain[j] else null
  }

  /** The node before the j-th, null at the head. */
  function Before<V>(chain: seq<Node<V>>, j: nat): Node?<V> {
    if j > 0 then At(chain, j - 1) else null
  }

  /** Each node's link leads to the next one of the chain. */
  ghost predicate Links<V>(next: map<Node<V>, Node?<V>>, chain: seq<Node<V>>) {
    forall j: nat :: j < |chain| ==> chain[j] in next && next[chain[j]] == At(chain, j + 1)
  }

  ghost predicate Distinct<V>(chain: seq<Node<V>>) {
    forall j, k :: 0 <= j < k < |chain| ==> chain[j] != chain[k]
  }

  /** Heads and links spell out the chains. */
  ghost predicate Spells<V>(next: map<Node<V>, Node?<V>>, table: seq<Node?<V>>, chains: seq<seq<Node<V>>>) {
    && |table| == |chains|
    && forall i :: 0 <= i < |chains| ==>
         table[i] == At(chains[i], 0) && Links(next, chains[i]) && Distinct(chains[i])
  }

  ghost function Vals<V>(chain: seq<Node<V>>): (es: Chain<V>)
    ensures |es| == |chain| && forall j :: 0 <= j < |chain| ==> es[j] == chain[j].Val()
  {
    seq(|chain|, j requires 0 <= j < |chain| => chain[j].Val())
  }

  ghost function Contents<V>(chains: seq<seq<Node<V>>>): (b: Buckets<V>)
    ensures |b| == |chains| && forall i :: 0 <= i < |chains| ==> b[i] == Vals(chains[i])
  {
    seq(|chains|, i requires 0 <= i < |chains| => Vals(chains[i]))
  }

  /** A node of one bucket is in no other. */
  lemma OneBucket<V>(c: Config, chains: seq<seq<Node<V>>>, i: nat, j: nat, p: nat, q: nat)
    requires Placed(c, Contents(chains)) && i < |chains| && j < |chains[i]| && p < |chains| && q < |chains[p]|
    requires chains[i][j] == chains[p][q]
    ensures i == p
  {
    var b := Contents(chains);
    assert Fits(c, |b|, i, b[i][j]) && Fits(c, |b|, p, b[p][q]);
  }

  // ----- linking in front -----

  ghost function PushedNode<V>(chains: seq<seq<Node<V>>>, e: Node<V>): (r: seq<seq<Node<V>>>)
    requires |chains| > 0
    ensures |r| == |chains|
  {
    chains[e.h % |chains| := [e] + chains[e.h % |chains|]]
  }

  lemma PushedContents<V>(chains: seq<seq<Node<V>>>, e: Node<V>)
    requires |chains| > 0
    ensures Contents(PushedNode(chains, e)) == Pushed(Contents(chains), e.Val())
  {
    var i := e.h % |chains|;
    assert Vals([e] + chains[i]) == [e.Val()] + Vals(chains[i]);
  }

  lemma ConsLinks<V>(next: map<Node<V>, Node?<V>>, chain: seq<Node<V>>, e: Node<V>)
    requires Links(next, chain) && Distinct(chain) && e !in chain
    ensures Links(next[e := At(chain, 0)], [e] + chain) && Distinct([e] + chain)
  {
    var r, after := [e] + chain, next[e := At(chain, 0)];
    forall j: nat | j < |r| ensures r[j] in after && after[r[j]] == At(r, j + 1) {
      assert j > 0 ==> r[j] == chain[j - 1];
    }
  }

  /** A node in no bucket yet, led to the head of its bucket, may become the head. */
  lemma PushSpells<V>(next: map<Node<V>, Node?<V>>, table: seq<Node?<V>>, chains: seq<seq<Node<V>>>, e: Node<V>)
    requires Spells(next, table, chains) && |chains| > 0 && forall i :: 0 <= i < |chains| ==> e !in chains[i]
    ensures var i := e.h % |chains|; Spells(next[e := table[i]], table[i := e], PushedNode(chains, e))
  {
    var i, r := e.h % |chains|, PushedNode(chains, e);
    var after := next[e := table[i]];
    forall p | 0 <= p < |r| ensures table[i := e][p] == At(r[p], 0) && Links(after, r[p]) && Distinct(r[p]) {
      assert Links(next, chains[p]);
      if p == i {
        ConsLinks(next, chains[i], e);
      }
    }
  }

  // ----- unlinking -----

  ghost function CutNode<V>(chain: seq<Node<V>>, j: nat): seq<Node<V>>
    requires j < |chain|
  {
    chain[..j] + chain[j + 1..]
  }

  ghost function CutNodeAt<V>(chains: seq<seq<Node<V>>>, i: nat, j: nat): seq<seq<Node<V>>>
    requires i < |chains| && j < |chains[i]|
  {
    chains[i := CutNode(chains[i], j)]
  }

  lemma CutContents<V>(chains: seq<seq<Node<V>>>, i: nat, j: nat)
    requires i < |chains| && j < |chains[i]|
    ensures Contents(CutNodeAt(chains, i, j)) == CutAt(Contents(chains), i, j)
  {
    assert Vals(CutNode(chains[i], j)) == Cut(Vals(chains[i]), j);
  }

  /** The links after the one before node j was led around it; at the head it is the table that changes. */
  ghost function LedAround<V>(next: map<Node<V>, Node?<V>>, chain: seq<Node<V>>, j: nat): map<Node<V>, Node?<V>>
    requires j < |chain| && chain[j] in next
  {
    if j > 0 then next[chain[j - 1] := next[chain[j]]] else next
  }

  lemma CutDistinct<V>(chain: seq<Node<V>>, j: nat)
    requires Distinct(chain) && j < |chain|
    ensures Distinct(CutNode(chain, j)) && chain[j] !in CutNode(chain, j)
  {
    var r := CutNode(chain, j);
    forall k | 0 <= k < |r| ensures r[k] == chain[if k < j then k else k + 1] {
    }
  }

  lemma CutLinks<V>(next: map<Node<V>, Node?<V>>, chain: seq<Node<V>>, j: nat)
    requires Links(next, chain) && Distinct(chain) && j < |chain|
    ensures Links(LedAround(next, chain, j), CutNode(chain, j))
  {
    var r, after := CutNode(chain, j), LedAround(next, chain, j);
    forall k: nat | k < |r| ensures r[k] in after && after[r[k]] == At(r, k + 1) {
      if k < j {
        assert r[k] == chain[k] && chain[k] in next && next[chain[k]] == At(chain, k + 1);
        assert chain[j] in next && next[chain[j]] == At(chain, j + 1);
      } else {
        assert r[k] == chain[k + 1] && chain[k + 1] in next && next[chain[k + 1]] == At(chain, k + 2);
      }
    }
  }

  /** Taking node j out of bucket i leaves the other buckets alone. */
  lemma CutSpells<V>(c: Config, next: map<Node<V>, Node?<V>>, table: seq<Node?<V>>, chains: seq<seq<Node<V>>>, i: nat,
      j: nat)
    requires Placed(c, Contents(chains)) && Spells(next, table, chains) && i < |chains| && j < |chains[i]|
    ensures chains[i][j] in next && next[chains[i][j]] == At(chains[i], j + 1)
    ensures Spells(LedAround(next, chains[i], j), if j > 0 then table else table[i := next[chains[i][j]]],
        CutNodeAt(chains, i, j))
  {
    assert Links(next, chains[i]);
    var r, after := CutNodeAt(chains, i, j), LedAround(next, chains[i], j);
    forall p | 0 <= p < |r| ensures Links(after, r[p]) && Distinct(r[p]) {
      if p == i {
        CutLinks(next, chains[i], j);
        CutDistinct(chains[i], j);
      } else {
        assert Links(next, chains[p]);
        forall q: nat | q < |chains[p]| && j > 0 ensures chains[p][q] != chains[i][j - 1] {
          if chains[p][q] == chains[i][j - 1] {
            OneBucket(c, chains, p, q, i, j - 1);
          }
        }
      }
    }
  }

  // ----- moving a node from one table to another -----

  /** No node is in both tables. */
  ghost predicate Apart<V>(a: seq<seq<Node<V>>>, b: seq<seq<Node<V>>>) {
    forall i, j, p, q :: 0 <= i < |a| && 0 <= j < |a[i]| && 0 <= p < |b| && 0 <= q < |b[p]| ==> a[i][j] != b[p][q]
  }

  predicate Absent<V>(chains: seq<seq<Node<V>>>, e: Node<V>) {
    forall i :: 0 <= i < |chains| ==> e !in chains[i]
  }

  /** Changing the link of a node outside the chains disturbs none of them. */
  lemma SpellsWithout<V>(next: map<Node<V>, Node?<V>>, table: seq<Node?<V>>, chains: seq<seq<Node<V>>>, e: Node<V>,
      to: Node?<V>)
    requires Spells(next, table, chains) && Absent(chains, e)
    ensures Spells(next[e := to], table, chains)
  {
    forall i | 0 <= i < |chains| ensures Links(next[e := to], chains[i]) {
      assert Links(next, chains[i]);
    }
  }

  lemma HeadIsGone<V>(c: Config, chains: seq<seq<Node<V>>>, i: nat)
    requires Placed(c, Contents(chains)) && i < |chains| && chains[i] != [] && Distinct(chains[i])
    ensures Absent(CutNodeAt(chains, i, 0), chains[i][0])
  {
    var r, e := CutNodeAt(chains, i, 0), chains[i][0];
    CutDistinct(chains[i], 0);
    forall p | 0 <= p < |r| ensures e !in r[p] {
      if p != i && e in chains[p] {
        var q :| 0 <= q < |chains[p]| && chains[p][q] == e;
        OneBucket(c, chains, i, 0, p, q);
      }
    }
  }

  lemma StillApart<V>(a: seq<seq<Node<V>>>, b: seq<seq<Node<V>>>, i: nat)
    requires Apart(a, b) && i < |a| && a[i] != [] && |b| > 0 && Absent(CutNodeAt(a, i, 0), a[i][0])
    ensures Absent(b, a[i][0]) && Apart(CutNodeAt(a, i, 0), PushedNode(b, a[i][0]))
  {
    var e, r, s := a[i][0], CutNodeAt(a, i, 0), PushedNode(b, a[i][0]);
    forall p, j, m, q | 0 <= p < |r| && 0 <= j < |r[p]| && 0 <= m < |s| && 0 <= q < |s[m]| ensures r[p][j] != s[m][q] {
      assert r[p][j] in r[p];
      assert r[p][j] == a[p][if p == i then j + 1 else j];
      if s[m][q] != e {
        assert s[m][q] == b[m][if m == e.h % |b| then q - 1 else q];
      }
    }
  }

  /** The head of an old bucket becomes the head of its new one. */
  lemma MoveSpells<V>(
    c: Config, next: map<Node<V>, Node?<V>>, table: seq<Node?<V>>, to: seq<Node?<V>>,
    a: seq<seq<Node<V>>>, b: seq<seq<Node<V>>>, i: nat)
    requires Placed(c, Contents(a)) && Spells(next, table, a) && Spells(next, to, b) && Apart(a, b)
    requires i < |a| && a[i] != [] && |b| > 0
    ensures a[i][0] in next
    ensures var e := a[i][0]; var k := e.h % |b|; var after := next[e := to[k]];
            && Spells(after, table[i := next[e]], CutNodeAt(a, i, 0)) && Spells(after, to[k := e], PushedNode(b, e))
            && Apart(CutNodeAt(a, i, 0), PushedNode(b, e))
  {
    var e := a[i][0];
    CutSpells(c, next, table, a, i, 0);
    HeadIsGone(c, a, i);
    SpellsWithout(next, table[i := next[e]], CutNodeAt(a, i, 0), e, to[e.h % |b|]);
    StillApart(a, b, i);
    PushSpells(next, to, b, e);
  }

  /** The first i buckets of a have been moved: b holds `moved`, a the rest of `all`. */
  ghost predicate Moving<V>(
    c: Config, a: seq<seq<Node<V>>>, b: seq<seq<Node<V>>>, i: nat, moved: Chain<V>, all: Chain<V>)
  {
    && |b| > 0 && i <= |a| && Placed(c, Contents(a)) && (forall k :: 0 <= k < i ==> a[k] == [])
    && Contents(b) == HashSpec.Linked(Empty<V>(|b|), moved) && moved + Flatten(Contents(a)) == all
  }

  lemma {:induction false} FlattenFrom<V>(b: Buckets<V>, i: nat)
    requires i < |b| && b[i] != [] && forall k :: 0 <= k < i ==> b[k] == []
    ensures Flatten(b) == [b[i][0]] + Flatten(CutAt(b, i, 0))
  {
    FlattenEmpty(b[..i]);
    FlattenAt(b, i);
    FlattenUpdate(b, i, Cut(b[i], 0));
    assert b[i] == [b[i][0]] + Cut(b[i], 0);
  }

  lemma MovesOn<V>(c: Config, a: seq<seq<Node<V>>>, b: seq<seq<Node<V>>>, i: nat, moved: Chain<V>, all: Chain<V>)
    requires Moving(c, a, b, i, moved, all) && i < |a| && a[i] != []
    ensures Moving(c, CutNodeAt(a, i, 0), PushedNode(b, a[i][0]), i, moved + [a[i][0].Val()], all)
  {
    var e := a[i][0];
    PushedContents(b, e);
    CutContents(a, i, 0);
    CutPlaced(c, Contents(a), i, 0);
    FlattenFrom(Contents(a), i);
    assert (moved + [e.Val()])[..|moved|] == moved;
  }

  /** An emptied bucket joins those that have been moved. */
  lemma BucketMoved<V>(c: Config, a: seq<seq<Node<V>>>, b: seq<seq<Node<V>>>, i: nat, moved: Chain<V>, all: Chain<V>)
    requires Moving(c, a, b, i, moved, all) && i < |a| && a[i] == []
    ensures Moving(c, a, b, i + 1, moved, all)
  {
  }

  lemma NoneMoved<V>(c: Config, a: seq<seq<Node<V>>>, b: seq<seq<Node<V>>>)
    requires Placed(c, Contents(a)) && |b| > 0 && forall k :: 0 <= k < |b| ==> b[k] == []
    ensures Moving(c, a, b, 0, [], Flatten(Contents(a)))
  {
    assert Contents(b) == Empty<V>(|b|);
    assert [] + Flatten(Contents(a)) == Flatten(Contents(a));
  }

  lemma MovedAll<V>(c: Config, a: seq<seq<Node<V>>>, b: seq<seq<Node<V>>>, moved: Chain<V>, all: Chain<V>)
    requires Moving(c, a, b, |a|, moved, all)
    ensures Contents(b) == HashSpec.Linked(Empty<V>(|b|), all)
  {
    FlattenEmpty(Contents(a));
    assert moved + [] == moved;
  }
}
