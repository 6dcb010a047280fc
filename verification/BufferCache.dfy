/** The buffer cache of bio.c over one disk.

    Each method up to Deref is one region that the source runs under bcache.lock, under
    idelock or holding a buffer's sleep lock, so an interleaving of processes is a
    sequence of these calls.  Bread, Bwrite and Brelse put the regions together. */
module BufferCache {
  import opened BlockDevice
  import opened BufferRing
  import Spec = CacheSpec

  datatype Option<T> = None | Some(value: T)

  class Cache {
    const p: Spec.Config
    /** bcache.buf, with bcache.head in the last cell, where the struct puts it. */
    const buf: array<Buf>
    const disk: array<Block>

    ghost var lru: seq<nat>
    ghost var at: map<int, nat>
    ghost var mem: seq<Block>

    ghost function State(): Spec.State
      reads this, buf, disk
    {
      Spec.State(buf[..], lru, at, mem, disk[..])
    }

    ghost predicate Valid()
      reads this, buf, disk
    {
      Spec.Inv(p, State())
    }

    /** binit: an empty cache; every buffer is on device 0, which is not in use. */
    constructor (nbuf: nat, rootdev: int, disk: array<Block>)
      requires nbuf > 0 && rootdev != 0
      ensures Valid() && this.disk == disk && fresh(buf) && p == Spec.Config(nbuf, rootdev)
      ensures mem == disk[..]
      ensures forall i :: 0 <= i < nbuf ==> !buf[i].dirty && buf[i].refcnt == 0
    {
      this.disk := disk;
      p := Spec.Config(nbuf, rootdev);
      buf := new Buf[nbuf + 1](_ => Buf(0, 0, false, false, 0, false, 0, 0, []));
      lru, at, mem := [], map[], disk[..];
      new;
      buf[nbuf] := buf[nbuf].(prev := nbuf);
      buf[nbuf] := buf[nbuf].(next := nbuf);
      var b := 0;
      while b < nbuf
        invariant 0 <= b <= nbuf && |lru| == b && Ring(buf[..], nbuf, lru)
        invariant forall i :: 0 <= i < nbuf ==> (i in lru <==> i < b)
        invariant forall i :: 0 <= i <= nbuf ==> SameButLinks(buf[i], Buf(0, 0, false, false, 0, false, 0, 0, []))
        invariant at == map[] && mem == disk[..]
      {
        LinkFrontRing(buf[..], nbuf, lru, b);
        PushFront(b);
        lru := [b] + lru;
        b := b + 1;
      }
      Spec.EmptyInv(p, buf[..], lru, disk[..]);
    }

    /** Insert buffer b between bcache.head and the buffer after it. */
    method PushFront(b: nat)
      requires b < p.nbuf < buf.Length && buf[p.nbuf].next < buf.Length
      modifies buf
      ensures buf[..] == LinkFront(old(buf[..]), p.nbuf, b)
    {
      var head := p.nbuf;
      buf[b] := buf[b].(next := buf[head].next);
      buf[b] := buf[b].(prev := head);
      buf[buf[head].next] := buf[buf[head].next].(prev := b);
      buf[head] := buf[head].(next := b);
    }

    /** The first loop of bget: is the block already cached? */
    method Lookup(block: int) returns (r: Option<nat>)
      requires Valid()
      ensures r == if block in at then Some(at[block]) else None
    {
      var head := p.nbuf;
      ghost var j := 0;
      assert buf[..][Node(lru, head, -1)].next == Node(lru, head, 0);
      var b := buf[head].next;
      while b != head
        invariant 0 <= j <= |lru| && b == Node(lru, head, j)
        invariant forall k :: 0 <= k < j ==> !(buf[lru[k]].dev == p.rootdev && buf[lru[k]].blockno == block)
        decreases |lru| - j
      {
        if buf[b].dev == p.rootdev && buf[b].blockno == block {
          assert Spec.BufferInv(p, State(), b);
          return Some(b);
        }
        assert buf[..][Node(lru, head, j)].next == Node(lru, head, j + 1);
        b, j := buf[b].next, j + 1;
      }
      forall i | 0 <= i < p.nbuf ensures !(buf[i].dev == p.rootdev && buf[i].blockno == block) {
        assert i in lru;
      }
      return None;
    }

    /** The second loop of bget, from the least recently used end. */
    method FindVictim() returns (r: Option<nat>)
      requires Valid()
      ensures r.Some? ==> r.value < p.nbuf && Spec.IsVictim(State(), r.value)
      ensures r.None? ==> forall i :: 0 <= i < p.nbuf ==> !Spec.Eligible(buf[i])
    {
      var head := p.nbuf;
      assert buf[..][Node(lru, head, |lru|)].prev == Node(lru, head, |lru| - 1);
      ghost var j := |lru| - 1;
      var b := buf[head].prev;
      while b != head
        invariant -1 <= j < |lru| && b == Node(lru, head, j)
        invariant forall k :: j < k < |lru| ==> !Spec.Eligible(buf[lru[k]])
        decreases j
      {
        if buf[b].refcnt == 0 && !buf[b].dirty {
          return Some(b);
        }
        assert buf[..][Node(lru, head, j)].prev == Node(lru, head, j - 1);
        b, j := buf[b].prev, j - 1;
      }
      forall i | 0 <= i < p.nbuf ensures !Spec.Eligible(buf[i]) {
        assert i in lru;
      }
      return None;
    }

    /** bget up to the point where it sleeps on the buffer's lock; None is its panic. */
    method Bget(block: int) returns (r: Option<nat>)
      requires Valid() && 0 <= block < disk.Length
      modifies this, buf
      ensures Valid()
      ensures block in old(at) ==> r == Some(old(at)[block]) && State() == Spec.Hit(old(State()), old(at)[block])
      ensures block !in old(at) && r.Some? ==>
                r.value < p.nbuf && Spec.IsVictim(old(State()), r.value)
                && State() == Spec.Recycle(p, old(State()), r.value, block)
      ensures r.None? ==>
                State() == old(State()) && block !in at
                && forall i :: 0 <= i < p.nbuf ==> !Spec.Eligible(buf[i])
    {
      r := Lookup(block);
      if r.Some? {
        var b := r.value;
        Spec.HitKeepsInv(p, State(), b);
        buf[b] := buf[b].(refcnt := buf[b].refcnt + 1);
        assert State() == Spec.Hit(old(State()), b);
        return;
      }
      r := FindVictim();
      if r.Some? {
        var b := r.value;
        Spec.RecycleKeepsInv(p, State(), b, block);
        buf[b] := buf[b].(dev := p.rootdev);
        buf[b] := buf[b].(blockno := block);
        buf[b] := buf[b].(valid := false, dirty := false);
        buf[b] := buf[b].(refcnt := 1);
        at := (map x | x in at && at[x] != b :: at[x])[block := b];
        assert State() == Spec.Recycle(p, old(State()), b, block);
      }
    }

    /** The caller takes the buffer's sleep lock, once nobody holds it. */
    method AcquireSleep(i: nat)
      requires Valid() && i < p.nbuf && buf[i].refcnt > 0 && !buf[i].locked
      modifies buf
      ensures Valid() && State() == Spec.Lock(old(State()), i)
    {
      Spec.LockKeepsInv(p, State(), i);
      buf[i] := buf[i].(locked := true);
      assert State() == Spec.Lock(old(State()), i);
    }

    /** iderw; false is its panic, on a buffer that nobody has locked, with nothing to do, or on
        the second disk if ideinit has not found it. */
    method Iderw(i: nat, havedisk1: bool) returns (ok: bool)
      requires Valid() && i < p.nbuf
      modifies buf, disk
      ensures ok == old(buf[i].locked && (buf[i].dirty || !buf[i].valid) && (buf[i].dev == 0 || havedisk1))
      ensures ok ==> 0 <= old(buf[i].blockno) < disk.Length && Valid() && State() == Spec.Sync(old(State()), i)
      ensures !ok ==> State() == old(State())
    {
      if !buf[i].locked || (buf[i].valid && !buf[i].dirty) {
        return false;
      }
      if buf[i].dev != 0 && !havedisk1 {
        return false;
      }
      Spec.SyncKeepsInv(p, State(), i);
      if buf[i].dirty {
        disk[buf[i].blockno] := buf[i].data;
      } else {
        buf[i] := buf[i].(data := disk[buf[i].blockno]);
      }
      buf[i] := buf[i].(valid := true);
      buf[i] := buf[i].(dirty := false);
      assert State() == Spec.Sync(old(State()), i);
      return true;
    }

    /** memmove into the data of a buffer the caller holds. */
    method Store(i: nat, data: Block)
      requires Valid() && i < p.nbuf && buf[i].locked && buf[i].valid
      modifies this, buf
      ensures 0 <= buf[i].blockno < disk.Length && 0 <= old(buf[i].blockno) < |old(mem)|
      ensures Valid() && State() == Spec.Store(old(State()), i, data)
      ensures at == old(at) && mem == old(mem)[buf[i].blockno := data] && disk[..] == old(disk[..])
      ensures buf[i] == old(buf[i]).(data := data)
      ensures forall j :: 0 <= j < p.nbuf && j != i ==> buf[j] == old(buf[j])
    {
      Spec.StoreKeepsInv(p, State(), i, data);
      mem := mem[buf[i].blockno := data];
      buf[i] := buf[i].(data := data);
      assert State() == Spec.Store(old(State()), i, data);
    }

    /** The buffer is marked dirty, and so pinned. */
    method SetDirty(i: nat)
      requires Valid() && i < p.nbuf && buf[i].locked && buf[i].valid
      modifies buf
      ensures Valid() && State() == Spec.Mark(old(State()), i)
    {
      Spec.MarkKeepsInv(p, State(), i);
      buf[i] := buf[i].(dirty := true);
      assert State() == Spec.Mark(old(State()), i);
    }

    method ReleaseSleep(i: nat)
      requires Valid() && i < p.nbuf && buf[i].locked && Spec.MayUnlock(State(), i)
      modifies buf
      ensures Valid() && State() == Spec.Unlock(old(State()), i)
    {
      Spec.UnlockKeepsInv(p, State(), i);
      buf[i] := buf[i].(locked := false);
      assert State() == Spec.Unlock(old(State()), i);
    }

    /** The part of brelse under bcache.lock. */
    method Deref(i: nat, ghost k: nat)
      requires Valid() && i < p.nbuf && k < |lru| && lru[k] == i
      requires buf[i].refcnt > 0 && (!buf[i].locked || buf[i].refcnt > 1)
      modifies this, buf
      ensures Spec.Movable(Spec.LessOne(old(buf[..]), i), p.nbuf, i)
      ensures Valid() && State() == Spec.Drop(p, old(State()), k)
      ensures at == old(at) && mem == old(mem) && disk[..] == old(disk[..])
      ensures SameButLinks(buf[i], old(buf[i]).(refcnt := old(buf[i].refcnt) - 1))
      ensures forall j :: 0 <= j < p.nbuf && j != i ==> SameButLinks(buf[j], old(buf[j]))
    {
      hide Spec.BufferInv, Spec.BlockInv, Node, Unlink, LinkFront;
      Spec.DropKeepsInv(p, State(), k);
      Spec.InUse(p, State(), i);
      buf[i] := buf[i].(refcnt := buf[i].refcnt - 1);
      SameLinksRing(old(buf[..]), buf[..], p.nbuf, lru);
      if buf[i].refcnt == 0 {
        MoveToFront(i, k);
      }
      assert State() == Spec.Drop(p, old(State()), k);
    }

    /** The lines of brelse that move an unused buffer to the front of the ring. */
    method MoveToFront(i: nat, ghost k: nat)
      requires Ring(buf[..], p.nbuf, lru) && k < |lru| && lru[k] == i < p.nbuf
      modifies this`lru, buf
      ensures old(buf[i].next) < |old(buf[..])| && old(buf[i].prev) < |old(buf[..])|
      ensures old(buf[i].next) != i && old(buf[i].prev) != i
      ensures Ring(Unlink(old(buf[..]), i), p.nbuf, Without(old(lru), k))
      ensures |Unlink(old(buf[..]), i)| == p.nbuf + 1 && Unlink(old(buf[..]), i)[p.nbuf].next <= p.nbuf
      ensures buf[..] == LinkFront(Unlink(old(buf[..]), i), p.nbuf, i) && lru == [i] + Without(old(lru), k)
      ensures forall j :: 0 <= j < buf.Length ==> SameButLinks(old(buf[..])[j], buf[j])
    {
      hide Node;
      ghost var bs := buf[..];
      UnlinkRing(bs, p.nbuf, lru, k);
      LinkFrontRing(Unlink(bs, i), p.nbuf, Without(lru, k), i);
      buf[buf[i].next] := buf[buf[i].next].(prev := buf[i].prev);
      buf[buf[i].prev] := buf[buf[i].prev].(next := buf[i].next);
      assert buf[..] == Unlink(bs, i);
      hide Unlink, LinkFront, Ring;
      PushFront(i);
      lru := [i] + Without(lru, k);
    }

    // ----- The operations of bio.c, for a caller that finds the buffer unlocked -----

    /** The caller holds exactly the buffers `held`, and nobody else refers to any. */
    ghost predicate Holding(held: set<nat>)
      reads this, buf
    {
      forall i :: 0 <= i < p.nbuf < buf.Length ==>
        if i in held then buf[i].locked && buf[i].valid && buf[i].refcnt == 1
        else !buf[i].locked && buf[i].refcnt == 0
    }

    /** The block is pinned: logged, and not yet written home. */
    ghost predicate Pinned(block: int)
      reads this, buf
    {
      block in at && at[block] < buf.Length && buf[at[block]].dirty
    }

    ghost predicate Spare(held: set<nat>)
      reads this, buf
    {
      exists i :: 0 <= i < p.nbuf < buf.Length && !buf[i].dirty && i !in held
    }

    ghost predicate NoneDirty()
      reads buf
    {
      forall i :: 0 <= i < p.nbuf < buf.Length ==> !buf[i].dirty
    }

    lemma AtIsRight()
      requires Valid()
      ensures buf.Length == p.nbuf + 1 && |mem| == disk.Length
      ensures forall c :: c in at ==> at[c] < p.nbuf < buf.Length && buf[at[c]].blockno == c
      ensures forall i :: 0 <= i < p.nbuf && buf[i].refcnt > 0 ==> buf[i].blockno in at && at[buf[i].blockno] == i
    {
      forall i | 0 <= i < p.nbuf && buf[i].refcnt > 0
        ensures buf[i].blockno in at && at[buf[i].blockno] == i
      {
        Spec.InUse(p, State(), i);
      }
    }

    /** The buffer that bget found is locked, and read if it has to be. */
    method LockAndFill(i: nat)
      requires Valid() && i < p.nbuf && buf[i].refcnt > 0 && !buf[i].locked
      modifies buf, disk
      ensures Valid() && at == old(at) && mem == old(mem) && disk[..] == old(disk[..]) && lru == old(lru)
      ensures forall j :: 0 <= j < buf.Length && j != i ==> buf[j] == old(buf[j])
      ensures 0 <= buf[i].blockno < |mem| && buf[i].data == mem[buf[i].blockno]
      ensures buf[i] == old(buf[i]).(locked := true, valid := true, data := buf[i].data)
      ensures !buf[i].dirty ==> mem[buf[i].blockno] == disk[buf[i].blockno]
    {
      hide Ring, Spec.BlockInv;
      Spec.InUse(p, State(), i);
      AcquireSleep(i);
      if !buf[i].valid {
        var done := Iderw(i, true);
        assert done;
      }
      Spec.InUse(p, State(), i);
    }

    /** The returned buffer shows the block's contents; the disk and what any other reader
        sees stay the same, and a pinned buffer is never recycled. */
    method Bread(block: int, ghost held: set<nat>) returns (r: Option<nat>)
      requires Valid() && Holding(held) && 0 <= block < disk.Length
      requires block in at ==> at[block] !in held
      modifies this, buf, disk
      ensures Valid() && mem == old(mem) && disk[..] == old(disk[..])
      ensures forall b :: 0 <= b < disk.Length ==> Pinned(b) == old(Pinned(b))
      ensures r.Some? ==>
                && r.value < p.nbuf && r.value !in held && Holding(held + {r.value})
                && block in at && at[block] == r.value && buf[r.value].blockno == block
                && buf[r.value].data == mem[block]
                && (forall i :: 0 <= i < p.nbuf && i != r.value ==> buf[i] == old(buf[i]))
                && buf[r.value].dirty == old(Pinned(block))
                && (!buf[r.value].dirty ==> mem[block] == disk[block])
      ensures r.None? ==> Holding(held) && !old(Pinned(block)) && !old(Spare(held))
    {
      hide Ring, Spec.BlockInv;
      r := Bget(block);
      if r.Some? {
        Spec.InUse(p, State(), r.value);
        LockAndFill(r.value);
      }
    }

    /** The block on disk becomes what the holder of the buffer sees; the pin is gone. */
    method Bwrite(i: nat, ghost held: set<nat>)
      requires Valid() && Holding(held) && i in held && i < p.nbuf
      modifies buf, disk
      ensures Valid() && Holding(held) && mem == old(mem) && at == old(at)
      ensures 0 <= buf[i].blockno < disk.Length
      ensures disk[..] == old(disk[..])[buf[i].blockno := mem[buf[i].blockno]]
      ensures buf[i] == old(buf[i]).(dirty := false)
      ensures forall j :: 0 <= j < p.nbuf && j != i ==> buf[j] == old(buf[j])
    {
      Spec.InUse(p, State(), i);
      SetDirty(i);
      var done := Iderw(i, true);
      assert done;
    }

    method Brelse(i: nat, ghost held: set<nat>)
      requires Valid() && Holding(held) && i in held && i < p.nbuf && Spec.MayUnlock(State(), i)
      modifies this, buf
      ensures Valid() && Holding(held - {i}) && mem == old(mem) && disk[..] == old(disk[..]) && at == old(at)
      ensures forall j :: 0 <= j < p.nbuf && j != i ==> SameButLinks(buf[j], old(buf[j]))
      ensures buf[i].dirty == old(buf[i].dirty) && buf[i].blockno == old(buf[i].blockno)
    {
      hide Ring, Spec.BufferInv, Spec.BlockInv, Spec.Drop;
      assert i in lru;
      ghost var k :| 0 <= k < |lru| && lru[k] == i;
      ReleaseSleep(i);
      Deref(i, k);
    }
  }
}
