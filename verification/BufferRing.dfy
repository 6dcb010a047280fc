/** The doubly linked LRU ring of bio.c, held in the buffers themselves. */
module BufferRing {
  import opened BlockDevice

  /** struct buf; prev and next are positions in the buffer array. */
  datatype Buf = Buf(dev: int, blockno: int, valid: bool, dirty: bool, refcnt: nat,
                     locked: bool, prev: nat, next: nat, data: Block)

  /** The node before the first and after the last buffer is bcache.head, at position h. */
  function Node(lru: seq<nat>, h: nat, j: int): nat {
    if 0 <= j < |lru| then lru[j] else h
  }

  /** `lru` lists the ring from head.next (most recently used) to head.prev. */
  ghost predicate Ring(bs: seq<Buf>, h: nat, lru: seq<nat>) {
    && |bs| == h + 1
    && (forall j :: 0 <= j < |lru| ==> lru[j] < h)
    && (forall j, k :: 0 <= j < k < |lru| ==> lru[j] != lru[k])
    && (forall j, k :: -1 <= j < |lru| && k == j + 1 ==> bs[Node(lru, h, j)].next == Node(lru, h, k))
    && (forall j, k :: 0 <= k <= |lru| && j == k - 1 ==> bs[Node(lru, h, k)].prev == Node(lru, h, j))
  }

  function SetPrev(bs: seq<Buf>, i: nat, v: nat): (r: seq<Buf>)
    requires i < |bs|
  {
    bs[i := bs[i].(prev := v)]
  }

  function SetNext(bs: seq<Buf>, i: nat, v: nat): (r: seq<Buf>)
    requires i < |bs|
  {
    bs[i := bs[i].(next := v)]
  }

  function Unlink(bs: seq<Buf>, b: nat): seq<Buf>
    requires b < |bs| && bs[b].next < |bs| && bs[b].prev < |bs|
    requires bs[b].next != b && bs[b].prev != b
  {
    var bs1 := SetPrev(bs, bs[b].next, bs[b].prev);
    SetNext(bs1, bs1[b].prev, bs1[b].next)
  }

  function LinkFront(bs: seq<Buf>, h: nat, b: nat): seq<Buf>
    requires b < h < |bs| && bs[h].next < |bs|
  {
    var bs1 := SetNext(bs, b, bs[h].next);
    var bs2 := SetPrev(bs1, b, h);
    var bs3 := SetPrev(bs2, bs2[h].next, b);
    SetNext(bs3, h, b)
  }

  /** Everything of a buffer but its links. */
  predicate SameButLinks(x: Buf, y: Buf) {
    x.(prev := 0, next := 0) == y.(prev := 0, next := 0)
  }

  function Without(lru: seq<nat>, k: nat): seq<nat>
    requires k < |lru|
  {
    lru[..k] + lru[k + 1..]
  }

  lemma UnlinkFields(bs: seq<Buf>, b: nat)
    requires b < |bs| && bs[b].next < |bs| && bs[b].prev < |bs|
    requires bs[b].next != b && bs[b].prev != b
    ensures var after := Unlink(bs, b);
            && |after| == |bs|
            && forall i :: 0 <= i < |bs| ==>
                 && SameButLinks(bs[i], after[i])
                 && after[i].next == (if i == bs[b].prev then bs[b].next else bs[i].next)
                 && after[i].prev == (if i == bs[b].next then bs[b].prev else bs[i].prev)
  {
  }

  lemma UnlinkRing(bs: seq<Buf>, h: nat, lru: seq<nat>, k: nat)
    requires Ring(bs, h, lru) && k < |lru|
    ensures bs[lru[k]].next == Node(lru, h, k + 1) && bs[lru[k]].prev == Node(lru, h, k - 1)
    ensures bs[lru[k]].next != lru[k] && bs[lru[k]].prev != lru[k]
    ensures bs[lru[k]].next <= h && bs[lru[k]].prev <= h
    ensures Ring(Unlink(bs, lru[k]), h, Without(lru, k))
    ensures |Unlink(bs, lru[k])| == |bs|
    ensures forall i :: 0 <= i < |bs| ==> SameButLinks(bs[i], Unlink(bs, lru[k])[i])
  {
    Neighbours(bs, h, lru, k);
    UnlinkFields(bs, lru[k]);
    hide Unlink, Node;
    var after, rest := Unlink(bs, lru[k]), Without(lru, k);
    forall j, i | -1 <= j < |rest| && i == j + 1 ensures after[Node(rest, h, j)].next == Node(rest, h, i) {
      UnlinkAt(bs, h, lru, k, j);
    }
    forall i, j | 0 <= j <= |rest| && i == j - 1 ensures after[Node(rest, h, j)].prev == Node(rest, h, i) {
      UnlinkAt(bs, h, lru, k, j - 1);
    }
  }

  lemma Neighbours(bs: seq<Buf>, h: nat, lru: seq<nat>, k: nat)
    requires Ring(bs, h, lru) && k < |lru|
    ensures bs[lru[k]].next == Node(lru, h, k + 1) && bs[lru[k]].prev == Node(lru, h, k - 1)
    ensures bs[lru[k]].next != lru[k] && bs[lru[k]].prev != lru[k]
    ensures bs[lru[k]].next <= h && bs[lru[k]].prev <= h
  {
    assert bs[Node(lru, h, k)].next == Node(lru, h, k + 1);
    assert bs[Node(lru, h, k)].prev == Node(lru, h, k - 1);
  }

  /** The link between positions j and j + 1 of the ring without buffer lru[k]. */
  lemma UnlinkAt(bs: seq<Buf>, h: nat, lru: seq<nat>, k: nat, j: int)
    requires Ring(bs, h, lru) && k < |lru| && -1 <= j < |lru| - 1
    ensures bs[lru[k]].next < |bs| && bs[lru[k]].prev < |bs| && bs[lru[k]].next != lru[k] && bs[lru[k]].prev != lru[k]
    ensures var after, rest := Unlink(bs, lru[k]), Without(lru, k);
            && |after| == |bs| && Node(rest, h, j) < |bs| && Node(rest, h, j + 1) < |bs|
            && after[Node(rest, h, j)].next == Node(rest, h, j + 1)
            && after[Node(rest, h, j + 1)].prev == Node(rest, h, j)
  {
    Neighbours(bs, h, lru, k);
    UnlinkFields(bs, lru[k]);
    hide Unlink;
    var rest := Without(lru, k);
    var x, y := if j < k then j else j + 1, if j + 1 < k then j + 1 else j + 2;
    assert Node(rest, h, j) == Node(lru, h, x) && Node(rest, h, j + 1) == Node(lru, h, y);
    assert bs[Node(lru, h, x)].next == Node(lru, h, x + 1);
    assert bs[Node(lru, h, y)].prev == Node(lru, h, y - 1);
    DistinctNodes(bs, h, lru, x, k - 1);
    DistinctNodes(bs, h, lru, y, k + 1);
  }

  /** Positions of the ring are different nodes, but for its two ends, which are both the head. */
  lemma DistinctNodes(bs: seq<Buf>, h: nat, lru: seq<nat>, x: int, y: int)
    requires Ring(bs, h, lru) && -1 <= x <= |lru| && -1 <= y <= |lru|
    ensures Node(lru, h, x) != Node(lru, h, y) || x == y || (x in {-1, |lru|} && y in {-1, |lru|})
  {
  }

  lemma LinkFrontRing(bs: seq<Buf>, h: nat, lru: seq<nat>, b: nat)
    requires Ring(bs, h, lru) && b < h && b !in lru
    ensures bs[h].next == Node(lru, h, 0) && bs[h].next <= h && bs[h].next != b
    ensures Ring(LinkFront(bs, h, b), h, [b] + lru)
    ensures |LinkFront(bs, h, b)| == |bs|
    ensures forall i :: 0 <= i < |bs| ==> SameButLinks(bs[i], LinkFront(bs, h, b)[i])
  {
    assert bs[Node(lru, h, -1)].next == Node(lru, h, 0);
    var after := LinkFront(bs, h, b);
    var more := [b] + lru;
    forall j, i | -1 <= j < |more| && i == j + 1 ensures after[Node(more, h, j)].next == Node(more, h, i) {
      if j >= 1 {
        assert bs[Node(lru, h, j - 1)].next == Node(lru, h, j);
      }
    }
    forall i, j | 0 <= j <= |more| && i == j - 1 ensures after[Node(more, h, j)].prev == Node(more, h, i) {
      if j >= 1 {
        assert bs[Node(lru, h, j - 1)].prev == Node(lru, h, j - 2);
      }
    }
  }

  /** Changing anything but the links leaves the ring as it is. */
  lemma SameLinksRing(bs: seq<Buf>, cs: seq<Buf>, h: nat, lru: seq<nat>)
    requires Ring(bs, h, lru) && |cs| == |bs|
    requires forall i :: 0 <= i < |bs| ==> cs[i].next == bs[i].next && cs[i].prev == bs[i].prev
    ensures Ring(cs, h, lru)
  {
  }
}
