/**
 * A hardware completion queue: a ring whose entries carry a phase tag that the device inverts on every pass
 * (section 4.6 of the NVM Express Base Specification 1.4). The host walks it with a head and a phase of its own.
 */
module PhaseRing {
  import opened Arithmetic

  datatype Entry<E> = Entry(e: E, tag: bool)

  /** An entry is new while its tag differs from the host's phase. */
  predicate Fresh<E>(ring: seq<Entry<E>>, head: nat, phase: bool)
    requires head < |ring|
  {
    ring[head].tag != phase
  }

  function NextHead(head: nat, qsize: nat): nat {
    if head + 1 == qsize then 0 else head + 1
  }

  function NextPhase(head: nat, qsize: nat, phase: bool): bool {
    if head + 1 == qsize then !phase else phase
  }

  // ----- the device's side -----

  /** Which pass over the ring entry k belongs to, as the host's phase. */
  function Pass(k: nat, qsize: nat): bool
    requires qsize > 0
  {
    (k / qsize) % 2 == 1
  }

  /**
   * The ring after the device has posted all of `stream`, entry k at slot k mod qsize with the inverse of its
   * pass as its tag. Slots never written still carry the tag they were cleared with.
   */
  ghost predicate Holds<E>(ring: seq<Entry<E>>, stream: seq<E>) {
    && |ring| > 0
    && (forall k :: 0 <= k < |stream| && |stream| - |ring| <= k ==>
          ring[k % |ring|] == Entry(stream[k], !Pass(k, |ring|)))
    && (forall i :: |stream| <= i < |ring| ==> !ring[i].tag)
  }

  /** The device posts one more entry. */
  function Post<E>(ring: seq<Entry<E>>, count: nat, e: E): seq<Entry<E>>
    requires |ring| > 0
  {
    ring[count % |ring| := Entry(e, !Pass(count, |ring|))]
  }

  lemma PostHolds<E>(ring: seq<Entry<E>>, stream: seq<E>, e: E)
    requires Holds(ring, stream)
    ensures Holds(Post(ring, |stream|, e), stream + [e])
  {
    var q, p, next := |ring|, |stream|, Post(ring, |stream|, e);
    forall k | 0 <= k < p + 1 && p + 1 - q <= k
      ensures next[k % q] == Entry((stream + [e])[k], !Pass(k, q))
    {
      if k < p {
        ModDistinct(k, p, q);
      }
    }
    if p < q {
      ModWithin(p, q);
    }
  }

  // ----- the host's side -----

  /** Counting on by one is stepping the head and, at the end of the ring, inverting the phase. */
  lemma StepCounts(k: nat, q: nat)
    requires q > 0
    ensures NextHead(k % q, q) == (k + 1) % q
    ensures NextPhase(k % q, q, Pass(k, q)) == Pass(k + 1, q)
  {
    var d, r := k / q, k % q;
    if r + 1 == q {
      ModUnique(k + 1, q, d + 1, 0);
    } else {
      ModUnique(k + 1, q, d, r + 1);
    }
  }

  /** Entry k, posted and not yet consumed, looks new; the slot behind the last one does not. */
  lemma FreshExactly<E>(ring: seq<Entry<E>>, stream: seq<E>, k: nat)
    requires Holds(ring, stream) && |stream| - |ring| <= k <= |stream|
    ensures k % |ring| < |ring|
    ensures Fresh(ring, k % |ring|, Pass(k, |ring|)) <==> k < |stream|
    ensures k < |stream| ==> ring[k % |ring|].e == stream[k]
  {
    var q, p := |ring|, |stream|;
    if k == p {
      if p < q {
        ModUnique(p, q, 0, p);
      } else {
        ModUnique(p - q, q, p / q - 1, p % q);
        assert ring[(p - q) % q] == Entry(stream[p - q], !Pass(p - q, q));
      }
    }
  }

  /** What a walk visits, and the head and phase it stops with. */
  datatype Walked<E> = Walked(visited: seq<E>, head: nat, phase: bool)

  /** The walk over unchanging ring contents, at most `left` entries long. */
  function Walk<E>(ring: seq<Entry<E>>, head: nat, phase: bool, left: nat): Walked<E>
    requires head < |ring|
    decreases left
  {
    if left == 0 || !Fresh(ring, head, phase) then Walked([], head, phase)
    else
      var w := Walk(ring, NextHead(head, |ring|), NextPhase(head, |ring|, phase), left - 1);
      w.(visited := [ring[head].e] + w.visited)
  }

  /**
   * On a ring that holds a stream of which k entries have been consumed, and none of the others overwritten, a
   * walk visits exactly the others, in order, and leaves head and phase ready for the entry to come.
   */
  lemma {:induction false} WalkFollowsStream<E>(ring: seq<Entry<E>>, stream: seq<E>, k: nat, left: nat)
    requires Holds(ring, stream) && |stream| - |ring| <= k <= |stream| <= k + left
    ensures k % |ring| < |ring|
    ensures Walk(ring, k % |ring|, Pass(k, |ring|), left)
            == Walked(stream[k..], |stream| % |ring|, Pass(|stream|, |ring|))
    decreases left
  {
    FreshExactly(ring, stream, k);
    if k < |stream| {
      StepCounts(k, |ring|);
      WalkFollowsStream(ring, stream, k + 1, left - 1);
      assert stream[k..] == [stream[k]] + stream[k + 1..];
    }
  }

  function Behind<E>(visited: seq<E>, w: Walked<E>): Walked<E> {
    w.(visited := visited + w.visited)
  }

  lemma WalkOn<E>(ring: seq<Entry<E>>, head: nat, phase: bool, left: nat, visited: seq<E>)
    requires head < |ring| && left > 0 && Fresh(ring, head, phase)
    ensures Behind(visited, Walk(ring, head, phase, left)) ==
            Behind(visited + [ring[head].e],
                Walk(ring, NextHead(head, |ring|), NextPhase(head, |ring|, phase), left - 1))
  {
  }

  /** Where k steps from head0 lead. */
  predicate StepsOn(q: nat, head0: nat, phase0: bool, k: nat, head: nat, phase: bool) {
    if head0 + k < q then head == head0 + k && phase == phase0
    else head0 + k < 2 * q && head == head0 + k - q && phase == !phase0
  }
}
