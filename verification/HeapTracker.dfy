/**
  The heap tracker: every live allocation hangs in one doubly linked list, and the last blocks
  freed hang in another, from which they are really freed in the order they came.
 */
module HeapTracker {
  /** BACKLOG_MAX. */
  const BACKLOG_MAX := 50

  /** ALLOCATION_TAG, BACKLOG_TAG, and the cleared tag of a block that is really free. */
  datatype Tag = Allocated | Backlogged | Cleared

  class Hdr {
    var tag: Tag
    var prev: Hdr?
    var next: Hdr?
    var size: nat

    constructor (size: nat)
      ensures this.size == size && tag == Cleared
    {
      this.size, tag, prev, next := size, Cleared, null, null;
    }
  }

  ghost predicate Distinct<T>(s: seq<T>) {
    forall i, j :: 0 <= i < j < |s| ==> s[i] != s[j]
  }

  ghost function Without<T>(s: seq<T>, k: nat): seq<T>
    requires k < |s|
  {
    s[..k] + s[k + 1..]
  }

  lemma WithoutDistinct(s: seq<Hdr>, k: nat)
    requires k < |s| && Distinct(s)
    ensures Distinct(Without(s, k)) && |Without(s, k)| == |s| - 1
  {
  }

  /**
    One of the two lists: its ends and its length. The blocks are linked newest first: `next` leads
    to older blocks and `prev` back, `last` points at the newest and `first` at the oldest.
   */
  class HdrList {
    var num: nat
    var first: Hdr?
    var last: Hdr?
    ghost var nodes: seq<Hdr>

    ghost predicate Valid()
      reads this, nodes
    {
      && Distinct(nodes) && num == |nodes|
      && last == (if nodes == [] then null else nodes[0])
      && first == (if nodes == [] then null else nodes[|nodes| - 1])
      && (forall i {:trigger nodes[i].prev} :: 0 <= i < |nodes| ==>
            nodes[i].prev == if i == 0 then null else nodes[i - 1])
      && (forall i {:trigger nodes[i].next} :: 0 <= i < |nodes| ==>
            nodes[i].next == if i == |nodes| - 1 then null else nodes[i + 1])
    }

    /** A list whose own links were left alone is still in order. */
    twostate lemma Undisturbed()
      requires old(Valid()) && unchanged(this)
      requires forall h :: h in nodes ==> h.prev == old(h.prev) && h.next == old(h.next)
      ensures Valid()
    {
      forall i | 0 <= i < |nodes|
        ensures nodes[i].prev == old(nodes[i].prev) && nodes[i].next == old(nodes[i].next)
      {
        assert nodes[i] in nodes;
      }
    }

    constructor ()
      ensures Valid() && nodes == []
    {
      num, first, last, nodes := 0, null, null, [];
    }

    /** `__add`, with the counter its callers keep. */
    method Add(hdr: Hdr)
      requires Valid() && hdr !in nodes
      modifies this, hdr`prev, hdr`next, nodes`prev
      ensures Valid() && nodes == [hdr] + old(nodes)
    {
      hdr.prev := null;
      hdr.next := last;
      if last != null {
        last.prev := hdr;
      } else {
        first := hdr;
      }
      last := hdr;
      num := num + 1;
      nodes := [hdr] + nodes;
    }

    /** `__del`, with the counter its callers keep. */
    method Del(hdr: Hdr, ghost k: nat)
      requires Valid() && k < |nodes| && nodes[k] == hdr
      modifies this, nodes`prev, nodes`next
      ensures Valid() && nodes == Without(old(nodes), k)
    {
      assert nodes[k].prev == if k == 0 then null else nodes[k - 1];
      assert nodes[k].next == if k == |nodes| - 1 then null else nodes[k + 1];
      if hdr.prev != null {
        hdr.prev.next := hdr.next;
      } else {
        last := hdr.next;
      }
      if hdr.next != null {
        hdr.next.prev := hdr.prev;
      } else {
        first := hdr.prev;
      }
      num := num - 1;
      WithoutDistinct(nodes, k);
      nodes := Without(nodes, k);
    }
  }

  function Min(a: int, b: int): int { if a < b then a else b }

  ghost function Members(s: seq<Hdr>): set<Hdr> { set h | h in s }

  /** The two lists have no block in common. */
  ghost predicate Apart(s: seq<Hdr>, t: seq<Hdr>) {
    forall h :: h in s ==> h !in t
  }

  /** What the tracker hands back: no memory, a tracked block, or one it does not track. */
  datatype Ptr = NullPtr | Block(hdr: Hdr) | Foreign

  /** The newest blocks that may stay in quarantine. */
  ghost function Kept(s: seq<Hdr>): seq<Hdr> { if |s| <= BACKLOG_MAX then s else s[..BACKLOG_MAX] }

  class Tracker {
    const allocs: HdrList
    const backlog: HdrList
    /** Blocks whose pointer a caller may still hold, including those really free by now. */
    ghost var known: set<Hdr>
    /** Blocks the real allocator considers allocated. */
    ghost var live: set<Hdr>
    /** Blocks that stay allocated although nobody can free them any more. */
    ghost var lost: set<Hdr>

    /**
      Everything is in order, except that block `x` (if any) is in neither list at the moment.
      Lists and tags agree, and no block is forgotten or freed twice.
     */
    ghost predicate ValidExcept(x: Hdr?)
      reads this, allocs, backlog, allocs.nodes, backlog.nodes, known
    {
      && allocs != backlog && allocs.Valid() && backlog.Valid()
      && Apart(allocs.nodes, backlog.nodes)
      && Members(allocs.nodes) + Members(backlog.nodes) <= known && lost !! known
      && (x != null ==> x in known && x !in allocs.nodes && x !in backlog.nodes)
      && live == Members(allocs.nodes) + Members(backlog.nodes) + lost + (if x == null then {} else {x})
      && (forall h :: h in known && h != x ==> (h.tag == Allocated <==> h in allocs.nodes))
      && (forall h :: h in known && h != x ==> (h.tag == Backlogged <==> h in backlog.nodes))
    }

    /** Between calls, the quarantine is also within its limit. */
    ghost predicate Valid()
      reads this, allocs, backlog, allocs.nodes, backlog.nodes, known
    {
      ValidExcept(null) && |backlog.nodes| <= BACKLOG_MAX
    }

    constructor ()
      ensures Valid() && allocs.nodes == [] && backlog.nodes == [] && known == live == lost == {}
      ensures fresh(allocs) && fresh(backlog)
    {
      allocs := new HdrList();
      backlog := new HdrList();
      known, live, lost := {}, {}, {};
    }

    /** The real allocator hands out a block. */
    ghost method RealMalloc(hdr: Hdr)
      requires ValidExcept(null) && hdr !in known && hdr !in lost
      modifies this`known, this`live
      ensures ValidExcept(hdr) && known == old(known) + {hdr}
    {
      known := known + {hdr};
      live := live + {hdr};
    }

    /** The real allocator takes a block back; it must have been allocated. */
    ghost method RealFree(hdr: Hdr)
      requires ValidExcept(hdr) && hdr.tag == Cleared && hdr in live && hdr !in lost
      modifies this`live
      ensures ValidExcept(null) && hdr !in live
    {
      live := live - {hdr};
    }

    /** `add`, for a block that is in neither list. */
    method Add(hdr: Hdr, size: nat)
      requires ValidExcept(hdr)
      modifies allocs, hdr, allocs.nodes`prev
      ensures ValidExcept(null) && allocs.nodes == [hdr] + old(allocs.nodes) && backlog.nodes == old(backlog.nodes)
      ensures hdr.size == size
    {
      hdr.tag := Allocated;
      hdr.size := size;
      allocs.Add(hdr);
      backlog.Undisturbed();
    }

    /** `del`: takes a block out of the allocations, if its tag says it is there. */
    method Del(hdr: Hdr) returns (ok: bool, ghost k: nat)
      requires ValidExcept(null) && hdr in known
      modifies allocs, allocs.nodes`prev, allocs.nodes`next
      ensures ok <==> hdr.tag == Allocated
      ensures backlog.nodes == old(backlog.nodes)
      ensures !ok ==> ValidExcept(null) && allocs.nodes == old(allocs.nodes)
      ensures ok ==> ValidExcept(hdr) && k < |old(allocs.nodes)| && old(allocs.nodes)[k] == hdr
                     && allocs.nodes == Without(old(allocs.nodes), k)
    {
      k := 0;
      if hdr.tag != Allocated {
        return false, k;
      }
      k :| 0 <= k < |allocs.nodes| && allocs.nodes[k] == hdr;
      allocs.Del(hdr, k);
      backlog.Undisturbed();
      WithoutMembers(old(allocs.nodes), k);
      ok := true;
    }

    /** `del_from_backlog`: takes a block out of quarantine and clears its tag. */
    method DelFromBacklog(hdr: Hdr, ghost k: nat)
      requires ValidExcept(null) && k < |backlog.nodes| && backlog.nodes[k] == hdr
      modifies backlog, backlog.nodes`prev, backlog.nodes`next, hdr`tag
      ensures ValidExcept(hdr) && hdr.tag == Cleared
      ensures backlog.nodes == Without(old(backlog.nodes), k) && allocs.nodes == old(allocs.nodes)
    {
      assert hdr in Members(backlog.nodes);
      backlog.Del(hdr, k);
      hdr.tag := Cleared;
      allocs.Undisturbed();
      WithoutMembers(old(backlog.nodes), k);
    }

    /** `add_to_backlog`: the block joins the quarantine, and the oldest ones beyond the limit leave. */
    method AddToBacklog(hdr: Hdr)
      requires ValidExcept(hdr)
      modifies this`live, backlog, hdr`tag, hdr`prev, hdr`next
      modifies backlog.nodes`prev, backlog.nodes`next, backlog.nodes`tag
      ensures Valid() && allocs.nodes == old(allocs.nodes)
      ensures backlog.nodes == Kept([hdr] + old(backlog.nodes))
    {
      Quarantine(hdr);
      EvictOldest();
    }

    method Quarantine(hdr: Hdr)
      requires ValidExcept(hdr)
      modifies backlog, hdr`tag, hdr`prev, hdr`next, backlog.nodes`prev
      ensures ValidExcept(null) && allocs.nodes == old(allocs.nodes)
      ensures backlog.nodes == [hdr] + old(backlog.nodes)
    {
      hdr.tag := Backlogged;
      backlog.Add(hdr);
      allocs.Undisturbed();
    }

    /** The eviction loop of `add_to_backlog`. */
    method EvictOldest()
      requires ValidExcept(null)
      modifies this`live, backlog, backlog.nodes`prev, backlog.nodes`next, backlog.nodes`tag
      ensures Valid() && allocs.nodes == old(allocs.nodes)
      ensures backlog.nodes == Kept(old(backlog.nodes))
    {
      ghost var all := backlog.nodes;
      assert all == all[..|all|];
      while backlog.num > BACKLOG_MAX
        invariant ValidExcept(null) && allocs.nodes == old(allocs.nodes)
        invariant Min(|all|, BACKLOG_MAX) <= |backlog.nodes| <= |all|
        invariant backlog.nodes == all[..|backlog.nodes|]
        modifies this`live, backlog, all`prev, all`next, all`tag
      {
        EvictOne();
      }
    }

    /** The oldest quarantined block is really freed. */
    method EvictOne()
      requires ValidExcept(null) && backlog.nodes != []
      modifies this`live, backlog, backlog.nodes`prev, backlog.nodes`next, backlog.nodes`tag
      ensures ValidExcept(null) && allocs.nodes == old(allocs.nodes)
      ensures backlog.nodes == old(backlog.nodes[..|backlog.nodes| - 1])
      ensures old(backlog.nodes[|backlog.nodes| - 1]) !in live
    {
      var gone := backlog.first;
      ghost var n := |backlog.nodes|;
      DelFromBacklog(gone, n - 1);
      assert Without(old(backlog.nodes), n - 1) == old(backlog.nodes)[..n - 1];
      RealFree(gone);
    }

    /** `__wrap_malloc`; `available` tells whether the real allocator has memory. */
    method Malloc(size: nat, available: bool) returns (p: Ptr)
      requires Valid()
      modifies this`known, this`live, allocs, allocs.nodes`prev
      ensures Valid() && backlog.nodes == old(backlog.nodes)
      ensures !available ==> p == NullPtr && allocs.nodes == old(allocs.nodes) && known == old(known)
      ensures available ==> p.Block? && fresh(p.hdr) && p.hdr.size == size
                            && allocs.nodes == [p.hdr] + old(allocs.nodes) && known == old(known) + {p.hdr}
    {
      if !available {
        return NullPtr;
      }
      var hdr := new Hdr(size);
      RealMalloc(hdr);
      Add(hdr, size);
      p := Block(hdr);
    }

    /**
      `__wrap_free`. A block that is not allocated, whether still in quarantine or gone from it, is
      only reported: neither list changes.
     */
    method Free(p: Ptr) returns (ghost k: nat)
      requires Valid() && !p.Foreign? && (p.Block? ==> p.hdr in known)
      modifies this`live, allocs, backlog, allocs.nodes`prev, allocs.nodes`next, allocs.nodes`tag
      modifies backlog.nodes`prev, backlog.nodes`next, backlog.nodes`tag
      ensures Valid()
      ensures p.Block? && old(p.hdr.tag) == Allocated ==>
        && k < |old(allocs.nodes)| && old(allocs.nodes)[k] == p.hdr
        && allocs.nodes == Without(old(allocs.nodes), k)
        && backlog.nodes == Kept([p.hdr] + old(backlog.nodes))
      ensures p == NullPtr || old(p.hdr.tag) != Allocated ==>
        allocs.nodes == old(allocs.nodes) && backlog.nodes == old(backlog.nodes)
    {
      k := 0;
      if p == NullPtr {
        return;
      }
      var hdr := p.hdr;
      var ok;
      ok, k := Del(hdr);
      if ok {
        AddToBacklog(hdr);
      }
    }

    /** Takes the block of a reallocation out of whichever list has it. */
    method Unlist(hdr: Hdr) returns (listed: bool, ghost k: nat)
      requires Valid() && hdr in known
      modifies allocs, backlog, allocs.nodes`prev, allocs.nodes`next, backlog.nodes`prev, backlog.nodes`next, hdr`tag
      ensures listed <==> old(hdr.tag) != Cleared
      ensures !listed ==> Valid() && allocs.nodes == old(allocs.nodes) && backlog.nodes == old(backlog.nodes)
      ensures listed ==> ValidExcept(hdr) && |backlog.nodes| <= BACKLOG_MAX
      ensures old(hdr.tag) == Allocated ==>
        && k < |old(allocs.nodes)| && old(allocs.nodes)[k] == hdr
        && allocs.nodes == Without(old(allocs.nodes), k) && backlog.nodes == old(backlog.nodes)
      ensures old(hdr.tag) == Backlogged ==>
        && k < |old(backlog.nodes)| && old(backlog.nodes)[k] == hdr
        && backlog.nodes == Without(old(backlog.nodes), k) && allocs.nodes == old(allocs.nodes)
    {
      listed, k := Del(hdr);
      if !listed && hdr.tag == Backlogged {
        k :| 0 <= k < |backlog.nodes| && backlog.nodes[k] == hdr;
        DelFromBacklog(hdr, k);
        listed := true;
      }
    }

    /** The real allocator moves a block: the old one is gone, and a new one takes its place. */
    ghost method RealMove(hdr: Hdr, moved: Hdr)
      requires ValidExcept(hdr) && moved !in known && moved !in lost
      modifies this`known, this`live
      ensures ValidExcept(moved) && known == old(known) - {hdr} + {moved} && hdr !in live
    {
      known := known - {hdr} + {moved};
      live := live - {hdr} + {moved};
    }

    /** The block, or the one it was moved to, is tracked anew. */
    method Relist(hdr: Hdr, size: nat, moves: bool) returns (r: Ptr)
      requires ValidExcept(hdr) && |backlog.nodes| <= BACKLOG_MAX
      modifies this`known, this`live, allocs, hdr, allocs.nodes`prev
      ensures Valid() && r.Block? && r.hdr.size == size && (!moves ==> r.hdr == hdr)
      ensures allocs.nodes == [r.hdr] + old(allocs.nodes) && backlog.nodes == old(backlog.nodes)
    {
      var block := hdr;
      if moves {
        block := new Hdr(size);
        RealMove(hdr, block);
      }
      Add(block, size);
      r := Block(block);
    }

    /** The real allocator fails: the block stays allocated, but nothing leads to it any more. */
    ghost method RealLose(hdr: Hdr)
      requires ValidExcept(hdr)
      modifies this`known, this`lost
      ensures ValidExcept(null) && known == old(known) - {hdr} && lost == old(lost) + {hdr}
    {
      known := known - {hdr};
      lost := lost + {hdr};
    }

    /**
      `__wrap_realloc`. A quarantined block is revived. When the real allocator fails, the block is
      in no list any more although it is still allocated, so it can never be freed.
     */
    method Realloc(p: Ptr, size: nat, available: bool, moves: bool) returns (r: Ptr, ghost k: nat)
      requires Valid() && !p.Foreign? && (p.Block? ==> p.hdr in known && p.hdr !in lost)
      modifies this`live, this`known, this`lost, allocs, backlog, allocs.nodes`prev, allocs.nodes`next, allocs.nodes`tag
      modifies backlog.nodes`prev, backlog.nodes`next, backlog.nodes`tag
      modifies if p.Block? then {p.hdr} else {}
      ensures Valid()
      ensures size == 0 ==> r == NullPtr && known == old(known) && lost == old(lost)
      ensures size == 0 && p.Block? && old(p.hdr.tag) == Allocated ==>
        && k < |old(allocs.nodes)| && old(allocs.nodes)[k] == p.hdr
        && allocs.nodes == Without(old(allocs.nodes), k) && backlog.nodes == Kept([p.hdr] + old(backlog.nodes))
      ensures size == 0 && (p == NullPtr || old(p.hdr.tag) != Allocated) ==>
        allocs.nodes == old(allocs.nodes) && backlog.nodes == old(backlog.nodes)
      ensures size > 0 && p == NullPtr ==>
        && backlog.nodes == old(backlog.nodes) && lost == old(lost)
        && (if available then r.Block? && r.hdr.size == size && allocs.nodes == [r.hdr] + old(allocs.nodes)
            else r == NullPtr && allocs.nodes == old(allocs.nodes))
      ensures size > 0 && p.Block? && old(p.hdr.tag) == Cleared ==>
        !r.Block? && allocs.nodes == old(allocs.nodes) && backlog.nodes == old(backlog.nodes)
      ensures size > 0 && p.Block? && old(p.hdr.tag) == Allocated && available ==>
        && r.Block? && r.hdr.size == size && (!moves ==> r.hdr == p.hdr) && k < |old(allocs.nodes)|
        && old(allocs.nodes)[k] == p.hdr && allocs.nodes == [r.hdr] + Without(old(allocs.nodes), k)
        && backlog.nodes == old(backlog.nodes) && lost == old(lost)
      ensures size > 0 && p.Block? && old(p.hdr.tag) == Backlogged && available ==>
        && r.Block? && r.hdr.size == size && (!moves ==> r.hdr == p.hdr) && k < |old(backlog.nodes)|
        && old(backlog.nodes)[k] == p.hdr && backlog.nodes == Without(old(backlog.nodes), k)
        && allocs.nodes == [r.hdr] + old(allocs.nodes) && lost == old(lost)
      ensures size > 0 && p.Block? && old(p.hdr.tag) != Cleared && !available ==>
        && r == NullPtr && lost == old(lost) + {p.hdr} && p.hdr in live && p.hdr !in known
        && p.hdr !in allocs.nodes && p.hdr !in backlog.nodes
      ensures size > 0 && p.Block? && old(p.hdr.tag) == Allocated && !available ==>
        && k < |old(allocs.nodes)| && old(allocs.nodes)[k] == p.hdr
        && allocs.nodes == Without(old(allocs.nodes), k) && backlog.nodes == old(backlog.nodes)
      ensures size > 0 && p.Block? && old(p.hdr.tag) == Backlogged && !available ==>
        && k < |old(backlog.nodes)| && old(backlog.nodes)[k] == p.hdr
        && backlog.nodes == Without(old(backlog.nodes), k) && allocs.nodes == old(allocs.nodes)
    {
      k := 0;
      if size == 0 {
        k := Free(p);
        return NullPtr, k;
      }
      if p == NullPtr {
        r := Malloc(size, available);
        return;
      }
      var listed;
      listed, k := Unlist(p.hdr);
      if !listed {
        return (if available then Foreign else NullPtr), k;
      }
      if !available {
        RealLose(p.hdr);
        return NullPtr, k;
      }
      r := Relist(p.hdr, size, moves);
    }

    /** `heaptracker_free_leaked_memory`: when the library goes away, both lists are emptied. */
    method FreeLeakedMemory()
      requires Valid()
      modifies this`live, this`known, allocs, backlog, allocs.nodes, backlog.nodes
      ensures Valid() && allocs.nodes == [] && backlog.nodes == [] && live == lost
    {
      FreeAllocations();
      FreeBacklog();
    }

    /** Its first loop. */
    method FreeAllocations()
      requires Valid()
      modifies this`live, this`known, allocs, allocs.nodes
      ensures Valid() && allocs.nodes == [] && backlog.nodes == old(backlog.nodes) && lost == old(lost)
    {
      while allocs.last != null
        invariant Valid() && backlog.nodes == old(backlog.nodes)
        invariant |allocs.nodes| <= |old(allocs.nodes)|
        invariant allocs.nodes == old(allocs.nodes)[|old(allocs.nodes)| - |allocs.nodes|..]
        modifies this`live, this`known, allocs, old(allocs.nodes)
        decreases |allocs.nodes|
      {
        FreeLeak();
      }
    }

    /** Its second loop. */
    method FreeBacklog()
      requires Valid()
      modifies this`live, backlog, backlog.nodes
      ensures Valid() && backlog.nodes == [] && allocs.nodes == old(allocs.nodes)
    {
      ghost var quarantined := backlog.nodes;
      assert quarantined == quarantined[..|quarantined|];
      while backlog.last != null
        invariant Valid() && allocs.nodes == old(allocs.nodes)
        invariant |backlog.nodes| <= |quarantined| && backlog.nodes == quarantined[..|backlog.nodes|]
        modifies this`live, backlog, quarantined
        decreases |backlog.nodes|
      {
        EvictOne();
      }
    }

    /** The newest allocation is dropped; its pointer must not be used again. */
    method FreeLeak()
      requires Valid() && allocs.nodes != []
      modifies this`live, this`known, allocs, allocs.nodes`prev, allocs.nodes`next
      ensures Valid() && allocs.nodes == old(allocs.nodes)[1..] && backlog.nodes == old(backlog.nodes)
      ensures old(allocs.nodes)[0] !in live
    {
      var del := allocs.last;
      DelLeak(del);
      RealForget(del);
    }

    /** `del_leak`, which does not ask for the tag. */
    method DelLeak(hdr: Hdr)
      requires ValidExcept(null) && allocs.nodes != [] && hdr == allocs.nodes[0]
      modifies allocs, allocs.nodes`prev, allocs.nodes`next
      ensures ValidExcept(hdr) && allocs.nodes == old(allocs.nodes)[1..] && backlog.nodes == old(backlog.nodes)
    {
      assert hdr in Members(allocs.nodes);
      allocs.Del(hdr, 0);
      backlog.Undisturbed();
      WithoutMembers(old(allocs.nodes), 0);
      assert Without(old(allocs.nodes), 0) == old(allocs.nodes)[1..];
    }

    /** The real allocator takes a leaked block back; its tag was not cleared. */
    ghost method RealForget(hdr: Hdr)
      requires ValidExcept(hdr) && hdr in live
      modifies this`known, this`live
      ensures ValidExcept(null) && known == old(known) - {hdr} && hdr !in live
    {
      known := known - {hdr};
      live := live - {hdr};
    }
  }

  lemma WithoutMembers(s: seq<Hdr>, k: nat)
    requires k < |s| && Distinct(s)
    ensures Members(Without(s, k)) == Members(s) - {s[k]}
    ensures forall h :: h in Without(s, k) <==> h in s && h != s[k]
  {
    var t := Without(s, k);
    forall h ensures h in t <==> h in s && h != s[k] {
      if h in s && h != s[k] {
        var i :| 0 <= i < |s| && s[i] == h;
        assert t[if i < k then i else i - 1] == h;
      }
    }
  }

  // ----- The quarantine over time -----

  datatype Request = AskMalloc(size: nat, available: bool)
                   | AskFree(p: Ptr)
                   | AskRealloc(p: Ptr, size: nat, available: bool, moves: bool)

  /** What a call does to the quarantine: a block joins it, the one at place `k` leaves, or nothing. */
  datatype Change = Joins(hdr: Hdr) | Leaves(k: nat) | Same

  ghost predicate Changes(q: seq<Hdr>, c: Change, q': seq<Hdr>) {
    match c
    case Joins(hdr) => q' == Kept([hdr] + q)
    case Leaves(k) => k < |q| && q' == Without(q, k)
    case Same => q' == q
  }

  /** Callers pass blocks of this tracker, or nothing. */
  ghost predicate Admissible(t: Tracker, r: Request)
    reads t
  {
    r.AskMalloc? || (!r.p.Foreign? && (r.p.Block? ==> r.p.hdr in t.known && r.p.hdr !in t.lost))
  }

  /** Every call on a tracker is a change, and it is a free that makes blocks join. */
  method Serve(t: Tracker, r: Request) returns (p: Ptr, ghost c: Change)
    requires t.Valid() && Admissible(t, r)
    modifies t, t.allocs, t.backlog, t.allocs.nodes`prev, t.allocs.nodes`next, t.allocs.nodes`tag
    modifies t.backlog.nodes`prev, t.backlog.nodes`next, t.backlog.nodes`tag
    modifies if !r.AskMalloc? && r.p.Block? then {r.p.hdr} else {}
    ensures t.Valid() && Changes(old(t.backlog.nodes), c, t.backlog.nodes)
    ensures c.Joins? <==> !r.AskMalloc? && r.p.Block? && old(r.p.hdr.tag) == Allocated && (r.AskFree? || r.size == 0)
    ensures c.Leaves? <==> r.AskRealloc? && r.p.Block? && old(r.p.hdr.tag) == Backlogged && r.size > 0
    ensures c.Joins? ==> c.hdr == r.p.hdr
    ensures c.Leaves? ==> c.k < |old(t.backlog.nodes)| && old(t.backlog.nodes)[c.k] == r.p.hdr
  {
    ghost var k;
    p, c := NullPtr, Same;
    match r
    case AskMalloc(size, available) =>
      p := t.Malloc(size, available);
    case AskFree(q) =>
      ghost var joins := q.Block? && q.hdr.tag == Allocated;
      k := t.Free(q);
      if joins { c := Joins(q.hdr); }
    case AskRealloc(q, size, available, moves) =>
      ghost var joins := q.Block? && q.hdr.tag == Allocated && size == 0;
      ghost var leaves := q.Block? && q.hdr.tag == Backlogged && size > 0;
      p, k := t.Realloc(q, size, available, moves);
      if joins { c := Joins(q.hdr); } else if leaves { c := Leaves(k); }
  }

  /** The quarantine through any number of calls, from empty. */
  ghost predicate QueueRun(qs: seq<seq<Hdr>>, cs: seq<Change>) {
    && |qs| == |cs| + 1 && qs[0] == []
    && forall i :: 0 <= i < |cs| ==> Changes(qs[i], cs[i], qs[i + 1])
  }

  /** All blocks ever freed and not revived since, the newest first. */
  ghost function FreedBy(cs: seq<Change>): seq<Hdr> {
    if cs == [] then []
    else
      var before := FreedBy(cs[..|cs| - 1]);
      match cs[|cs| - 1]
      case Joins(hdr) => [hdr] + before
      case Leaves(k) => if k < |before| then Without(before, k) else before
      case Same => before
  }

  function Revivals(cs: seq<Change>): nat {
    if cs == [] then 0 else Revivals(cs[..|cs| - 1]) + if cs[|cs| - 1].Leaves? then 1 else 0
  }

  /**
    Main result: whatever is freed, allocated and reallocated, the quarantine is first in, first out.
    At any time it holds the blocks freed last, newest first: all of them up to the limit, except
    that each revival may have left one place empty.
   */
  lemma {:induction false} QuarantineKeepsNewest(qs: seq<seq<Hdr>>, cs: seq<Change>)
    requires QueueRun(qs, cs)
    ensures qs[|cs|] <= FreedBy(cs) && |qs[|cs|]| <= BACKLOG_MAX
    ensures |qs[|cs|]| + Revivals(cs) >= Min(|FreedBy(cs)|, BACKLOG_MAX)
    decreases |cs|
  {
    if cs != [] {
      var n := |cs| - 1;
      QuarantineKeepsNewest(qs[..n + 1], cs[..n]);
      assert Changes(qs[n], cs[n], qs[n + 1]);
      QueueStep(qs[n], cs[n], qs[n + 1], FreedBy(cs[..n]));
    }
  }

  lemma QueueStep(q: seq<Hdr>, c: Change, q': seq<Hdr>, freed: seq<Hdr>)
    requires Changes(q, c, q') && q <= freed
    ensures match c
            case Joins(hdr) => q' <= [hdr] + freed
            case Leaves(k) => k < |freed| && q' <= Without(freed, k)
            case Same => q' <= freed
  {
    var rest := freed[|q|..];
    assert freed == q + rest;
    match c
    case Joins(hdr) =>
      assert [hdr] + freed == ([hdr] + q) + rest;
    case Leaves(k) =>
      assert Without(freed, k) == Without(q, k) + rest;
    case Same =>
  }
}
