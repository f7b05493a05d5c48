// The lock-counted lump cache of W_CacheLumpNum and W_UnlockLumpNum, for one
// lump: its lock count, its cache slot (empty, or a zone block holding the
// lump's bytes) and the zone tag of that block. PU_STATIC blocks are kept;
// PU_CACHE blocks may be reclaimed by the zone allocator at any time, which
// empties the slot.

module LockCache {
  import opened WadTypes

  /** The zone purge levels the cache uses: PU_STATIC (kept) and PU_CACHE (purgable). */
  datatype Tag = PuStatic | PuCache

  /** lumpcache[lump]: no block, or a block with the lump's bytes and its zone tag. */
  datatype Slot = Empty | Resident(bytes: seq<byte>, tag: Tag)

  /** One lump's lock count (lumpinfo[lump].locks) and cache slot. */
  datatype LockState = LockState(locks: int, slot: Slot)

  /** `unsigned short`, the type of W_CacheLumpNum's lock count. */
  type ushort = x: int | 0 <= x < 0x1_0000

  /** `signed short`, the type of W_UnlockLumpNum's unlock count. */
  type sshort = x: int | -0x8000 <= x < 0x8000

  /**
   * W_CacheLumpNum's effect: an empty slot receives `loaded` (the lump as
   * W_ReadLump produced it) in a PU_CACHE block; the count grows by delta;
   * and the block is changed to PU_STATIC when the count after the call
   * equals delta, i.e. when it was 0 before the call, whatever delta is.
   */
  function Acquire(st: LockState, delta: ushort, loaded: seq<byte>): (r: LockState)
    ensures r.locks == st.locks + delta
    ensures r.slot.Resident?
    ensures r.slot.bytes == if st.slot.Resident? then st.slot.bytes else loaded
    ensures r.slot.tag == PuStatic <==> st.locks == 0 || (st.slot.Resident? && st.slot.tag == PuStatic)
  {
    var slot := if st.slot.Empty? then Resident(loaded, PuCache) else st.slot;
    var locks := st.locks + delta;
    LockState(locks, if locks == delta then slot.(tag := PuStatic) else slot)
  }

  /**
   * W_UnlockLumpNum's effect: the count drops by `unlocks`, and a non-zero
   * unlock that brings it to exactly 0 makes the block purgable again.
   * An empty slot is left empty.
   */
  function Release(st: LockState, unlocks: sshort): (r: LockState)
    ensures r.locks == st.locks - unlocks
    ensures r.slot.Empty? <==> st.slot.Empty?
    ensures r.slot.Resident? ==> r.slot.bytes == st.slot.bytes
    ensures r.slot.Resident? ==>
      r.slot.tag == if unlocks != 0 && r.locks == 0 then PuCache else st.slot.tag
  {
    var locks := st.locks - unlocks;
    if unlocks != 0 && locks == 0 && st.slot.Resident? then LockState(locks, st.slot.(tag := PuCache))
    else LockState(locks, st.slot)
  }

  /** The zone allocator may reclaim a block only while it is tagged PU_CACHE. */
  predicate CanPurge(st: LockState) {
    st.slot.Resident? && st.slot.tag == PuCache
  }

  /** Reclaiming the block clears the owner pointer, so the slot becomes empty. */
  function Purge(st: LockState): (r: LockState)
    requires CanPurge(st)
    ensures r.locks == st.locks && r.slot.Empty?
  {
    LockState(st.locks, Empty)
  }

  /** A locked lump is resident and pinned: the pointer handed out stays valid. */
  predicate Pinned(st: LockState) {
    st.locks > 0 ==> st.slot.Resident? && st.slot.tag == PuStatic
  }

  /** The state the cache keeps when every unlock matches an earlier lock. */
  predicate Healthy(st: LockState) {
    st.locks >= 0 && Pinned(st)
  }

  /** Caching with any count keeps a healthy lump healthy. */
  lemma AcquireKeepsHealthy(st: LockState, delta: ushort, loaded: seq<byte>)
    requires Healthy(st)
    ensures Healthy(Acquire(st, delta, loaded))
  {
  }

  /** Unlocking at most the current count keeps a healthy lump healthy. */
  lemma ReleaseKeepsHealthy(st: LockState, unlocks: sshort)
    requires Healthy(st) && 0 <= unlocks <= st.locks
    ensures Healthy(Release(st, unlocks))
  {
  }

  /** Only an unlocked lump can be reclaimed, and reclaiming keeps it healthy. */
  lemma PurgeKeepsHealthy(st: LockState)
    requires Healthy(st) && CanPurge(st)
    ensures st.locks == 0
    ensures Healthy(Purge(st))
  {
  }

  /**
   * Under the lock discipline, an unlock that brings the count to exactly 0
   * starts from a locked lump, so the block W_UnlockLumpNum retags is
   * resident and pinned.
   */
  lemma ZeroingUnlockFindsBlock(st: LockState, unlocks: sshort)
    requires Healthy(st)
    requires unlocks != 0 && st.locks - unlocks == 0
    ensures st.slot.Resident? && st.slot.tag == PuStatic
  {
  }

  /** The actions on one lump: a cache call, an unlock call, a zone reclaim. */
  datatype Op = Lock(delta: ushort) | Unlock(unlocks: sshort) | Reclaim

  /** Whether an action is permitted: unlocks never exceed the count, and reclaims hit PU_CACHE blocks only. */
  predicate Allowed(st: LockState, op: Op) {
    match op
    case Lock(_) => true
    case Unlock(u) => 0 <= u <= st.locks
    case Reclaim => CanPurge(st)
  }

  /** One action; `loaded` is what reading the lump yields. */
  function Step(st: LockState, op: Op, loaded: seq<byte>): LockState {
    match op
    case Lock(d) => Acquire(st, d, loaded)
    case Unlock(u) => Release(st, u)
    case Reclaim => if CanPurge(st) then Purge(st) else st
  }

  function Run(st: LockState, ops: seq<Op>, loaded: seq<byte>): LockState
    decreases |ops|
  {
    if ops == [] then st else Run(Step(st, ops[0], loaded), ops[1..], loaded)
  }

  /** Every action of the sequence is permitted in the state it meets. */
  predicate AllAllowed(st: LockState, ops: seq<Op>, loaded: seq<byte>)
    decreases |ops|
  {
    ops == [] || (Allowed(st, ops[0]) && AllAllowed(Step(st, ops[0], loaded), ops[1..], loaded))
  }

  /** The net count of locks taken by a sequence of actions. */
  function Net(ops: seq<Op>): int
    decreases |ops|
  {
    if ops == [] then 0
    else (match ops[0] case Lock(d) => d as int case Unlock(u) => -(u as int) case Reclaim => 0) + Net(ops[1..])
  }

  /** A resident block only ever holds what reading the lump yields. */
  predicate Coherent(st: LockState, loaded: seq<byte>) {
    st.slot.Resident? ==> st.slot.bytes == loaded
  }

  /**
   * Over any permitted sequence of actions the count is the initial count
   * plus the net locks taken, a locked lump stays resident and pinned, and
   * the cache keeps serving the lump's bytes.
   */
  lemma {:induction false} RunKeepsHealthy(st: LockState, ops: seq<Op>, loaded: seq<byte>)
    requires Healthy(st) && Coherent(st, loaded)
    requires AllAllowed(st, ops, loaded)
    ensures Run(st, ops, loaded).locks == st.locks + Net(ops)
    ensures Healthy(Run(st, ops, loaded))
    ensures Coherent(Run(st, ops, loaded), loaded)
    decreases |ops|
  {
    if ops != [] {
      var next := Step(st, ops[0], loaded);
      match ops[0] {
        case Lock(d) => AcquireKeepsHealthy(st, d, loaded);
        case Unlock(u) => ReleaseKeepsHealthy(st, u);
        case Reclaim => PurgeKeepsHealthy(st);
      }
      RunKeepsHealthy(next, ops[1..], loaded);
    }
  }

  /**
   * W_CacheLumpNum with a count of 0 on an unlocked lump pins it although
   * the count stays 0, so the zone can no longer reclaim it.
   */
  lemma ZeroLockPins(st: LockState, loaded: seq<byte>)
    requires st.locks == 0
    ensures Acquire(st, 0, loaded).locks == 0
    ensures !CanPurge(Acquire(st, 0, loaded))
  {
  }

  /** A lock taken and released again leaves the lump unlocked and purgable. */
  lemma LockThenUnlock(st: LockState, loaded: seq<byte>)
    requires Healthy(st)
    requires st.locks == 0
    ensures Run(st, [Lock(1), Unlock(1)], loaded).locks == 0
    ensures CanPurge(Run(st, [Lock(1), Unlock(1)], loaded))
  {
    assert Run(st, [Lock(1), Unlock(1)], loaded) == Release(Acquire(st, 1, loaded), 1) by {
      assert [Lock(1), Unlock(1)][1..] == [Unlock(1)];
      assert [Unlock(1)][1..] == [];
    }
  }

  /**
   * Unlocking more than was locked breaks the pinning guarantee: after one
   * lock, two unlocks of 1 and 2, a reclaim and a lock of 3, the lump has
   * one lock but sits in a purgable block.
   */
  lemma ExcessUnlockUnpins(loaded: seq<byte>)
    ensures var ops := [Lock(1), Unlock(1), Unlock(2), Reclaim, Lock(3)];
      var st := Run(LockState(0, Empty), ops, loaded);
      st.locks == 1 && !Pinned(st)
  {
    var ops := [Lock(1), Unlock(1), Unlock(2), Reclaim, Lock(3)];
    var s0 := LockState(0, Empty);
    var s1 := Acquire(s0, 1, loaded);
    var s2 := Release(s1, 1);
    var s3 := Release(s2, 2);
    var s4 := Purge(s3);
    var s5 := Acquire(s4, 3, loaded);
    assert ops[1..] == [Unlock(1), Unlock(2), Reclaim, Lock(3)];
    assert ops[1..][1..] == [Unlock(2), Reclaim, Lock(3)];
    assert ops[1..][1..][1..] == [Reclaim, Lock(3)];
    assert ops[1..][1..][1..][1..] == [Lock(3)];
    assert ops[1..][1..][1..][1..][1..] == [];
    assert Run(s0, ops, loaded) == s5;
  }
}
