/** pipe.c's ring buffer and its two free-running 32-bit counters. */
module Pipe {
  import opened PipeSpec

  const UINT: nat := 0x1_0000_0000

  /** The counters wrap at a multiple of PIPESIZE, so the slot is the same. */
  lemma Slot(n: nat)
    ensures n % UINT % PIPESIZE == n % PIPESIZE
  {
    assert n == n / UINT * UINT + n % UINT;
    assert UINT == 0x80_0000 * PIPESIZE;
    SlotShift(n % UINT, n / UINT * 0x80_0000);
  }

  lemma {:induction false} SlotShift(a: nat, k: nat)
    ensures (a + k * PIPESIZE) % PIPESIZE == a % PIPESIZE
  {
  }

  lemma NextCount(n: nat)
    ensures (n % UINT + 1) % UINT == (n + 1) % UINT
  {
  }

  /** Full and empty are told apart in wrapped counters. */
  lemma Tests(d: nat, a: nat)
    requires d <= a <= d + PIPESIZE
    ensures a % UINT == (d % UINT + PIPESIZE) % UINT <==> a == d + PIPESIZE
    ensures d % UINT == a % UINT <==> d == a
  {
  }

  lemma OtherSlot(a: nat, j: nat)
    requires j < a < j + PIPESIZE
    ensures j % PIPESIZE != a % PIPESIZE
  {
  }

  class Pipe {
    const data: array<byte>
    var nread: nat
    var nwrite: nat
    var readopen: bool
    var writeopen: bool

    ghost var accepted: seq<byte>
    ghost var delivered: seq<byte>

    ghost function V(): View
      reads this
    {
      View(accepted, delivered, readopen, writeopen)
    }

    ghost predicate Valid()
      reads this, data
    {
      && data.Length == PIPESIZE && Sound(V())
      && nread == |delivered| % UINT && nwrite == |accepted| % UINT
      && Holds(data[..], accepted, |delivered|, |accepted|)
    }

    constructor ()
      ensures Valid() && V() == View([], [], true, true) && fresh(data)
    {
      data := new byte[PIPESIZE];
      readopen, writeopen, nwrite, nread := true, true, 0, 0;
      accepted, delivered := [], [];
    }

    /** pipeclose wakes the readers if `readers` and the writers if not, and gives the page back
        if `freed`. */
    method Close(writable: bool) returns (readers: bool, freed: bool)
      requires Valid()
      modifies this`readopen, this`writeopen
      ensures Valid() && V() == AfterClose(old(V()), writable)
      ensures readers == writable && freed == (!V().readopen && !V().writeopen)
    {
      if writable {
        writeopen := false;
        readers := true;
      } else {
        readopen := false;
        readers := false;
      }
      freed := !readopen && !writeopen;
    }

    /** pipewrite from byte i0 on, up to where it sleeps or returns; `woke` says whether it
        has called wakeup(&p->nread) before that. */
    method Write(addr: seq<byte>, i0: nat, killed: bool) returns (o: Outcome, woke: bool)
      requires Valid() && i0 <= |addr|
      modifies this`nwrite, this`accepted, data
      ensures Valid() && V() == old(AfterWrite(V(), addr, i0))
      ensures o == old(WriteOutcome(V(), addr, i0, killed)) && woke == (o != Returned(-1))
    {
      ghost var v := V();
      var i := i0;
      hide Holds;
      while i < |addr|
        invariant i0 <= i <= |addr| && Valid() && accepted == v.accepted + addr[i0..i]
      {
        Tests(|delivered|, |accepted|);
        if nwrite == (nread + PIPESIZE) % UINT {
          assert i - i0 == Fits(v, addr, i0);
          if !readopen || killed {
            return Returned(-1), false;
          }
          return Asleep(i), true;
        }
        Put(addr[i]);
        assert addr[i0..i] + [addr[i]] == addr[i0..i + 1];
        i := i + 1;
      }
      assert i - i0 == Fits(v, addr, i0);
      return Returned(|addr|), true;
    }

    /** One byte goes into the slot of the write counter, which moves on. */
    method Put(c: byte)
      requires Valid() && |accepted| < |delivered| + PIPESIZE
      modifies this`nwrite, this`accepted, data
      ensures Valid() && accepted == old(accepted) + [c]
    {
      Slot(|accepted|);
      NextCount(|accepted|);
      HoldsMore(data[..], accepted, |delivered|, c);
      hide Holds;
      data[nwrite % PIPESIZE] := c;
      nwrite := (nwrite + 1) % UINT;
      accepted := accepted + [c];
    }

    /** The byte in the slot of the read counter, which moves on. */
    method Get() returns (c: byte)
      requires Valid() && |delivered| < |accepted|
      modifies this`nread, this`delivered
      ensures Valid() && c == old(accepted[|delivered|]) && delivered == old(delivered) + [c]
    {
      Slot(|delivered|);
      NextCount(|delivered|);
      c := data[nread % PIPESIZE];
      assert data[..][|delivered| % PIPESIZE] == accepted[|delivered|];
      nread := (nread + 1) % UINT;
      delivered := delivered + [c];
    }

    /** piperead, up to where it sleeps or returns; then `bytes` is what it has copied, and
        it has woken the writers if `woke`. */
    method Read(n: nat, killed: bool) returns (o: Outcome, bytes: seq<byte>, woke: bool)
      requires Valid()
      modifies this`nread, this`delivered
      ensures Valid() && V() == old(AfterRead(V(), n)) && bytes == old(Taken(V(), n))
      ensures o == old(ReadOutcome(V(), n, killed)) && woke == (o.Returned? && o.r >= 0)
    {
      ghost var v := V();
      hide Holds;
      bytes := [];
      Tests(|delivered|, |accepted|);
      if nread == nwrite && writeopen {
        if killed {
          return Returned(-1), bytes, false;
        }
        return Asleep(0), bytes, false;
      }
      var i := 0;
      while i < n
        invariant 0 <= i <= n && i <= |Buffered(v)| && Valid() && bytes == Buffered(v)[..i] && delivered == v.delivered + bytes
      {
        Tests(|delivered|, |accepted|);
        if nread == nwrite {
          break;
        }
        var c := Get();
        assert Buffered(v)[..i] + [c] == Buffered(v)[..i + 1];
        bytes := bytes + [c];
        i := i + 1;
      }
      return Returned(i), bytes, true;
    }
  }

  /** The slots hold the bytes from `lo` up to `hi`. */
  ghost predicate Holds(slots: seq<byte>, accepted: seq<byte>, lo: nat, hi: nat) {
    |slots| == PIPESIZE && hi <= |accepted| && forall j :: lo <= j < hi ==> slots[j % PIPESIZE] == accepted[j]
  }

  lemma HoldsMore(slots: seq<byte>, accepted: seq<byte>, lo: nat, c: byte)
    requires lo <= |accepted| < lo + PIPESIZE && Holds(slots, accepted, lo, |accepted|)
    ensures Holds(slots[|accepted| % PIPESIZE := c], accepted + [c], lo, |accepted| + 1)
  {
    var slots', more := slots[|accepted| % PIPESIZE := c], accepted + [c];
    forall j | lo <= j < |accepted| + 1 ensures slots'[j % PIPESIZE] == more[j] {
      if j < |accepted| {
        OtherSlot(|accepted|, j);
      }
    }
  }
}
