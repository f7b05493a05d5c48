// Namespace markers and the layout W_CoalesceMarkedResource gives the lump
// directory. One scan classifies every lump as a start marker, an end
// marker, a lump inside a marked block or a lump outside; the coalesced
// directory is the outside lumps in order, a start sentinel if any start
// marker was seen, the marked lumps in order tagged with the namespace,
// and an end sentinel if any end marker was seen.

module Markers {
  import opened WadTypes

  const S_START: seq<byte> := Ascii("S_START")
  const S_END: seq<byte> := Ascii("S_END")
  const F_START: seq<byte> := Ascii("F_START")
  const F_END: seq<byte> := Ascii("F_END")
  const C_START: seq<byte> := Ascii("C_START")
  const C_END: seq<byte> := Ascii("C_END")

  /**
   * A name is a marker when it equals the marker over 8 bytes with case
   * ignored, or when its first byte equals the marker's first byte exactly
   * and the rest equals the marker over 7 bytes with case ignored (so
   * `SS_START` and `FF_END` are markers too).
   */
  predicate IsMarker(marker: seq<byte>, name: Name)
    ensures StrNCaseEq(name, marker, 8) ==> IsMarker(marker, name)
    ensures IsMarker(marker, name) ==> Lower(name[0]) == Lower(At(marker, 0))
  {
    StrNCaseEq(name, marker, 8) || (name[0] == At(marker, 0) && CaseEqFrom(name[1..], marker, 0, 7))
  }

  /** The role the scan gives a lump. The start test comes before the end test. */
  datatype Kind = StartMarker | EndMarker | Marked | Unmarked

  /**
   * is_marked as the scan reaches s[k]: the last marker before k is a start
   * marker.
   */
  function MarkedBefore(s: seq<Lump>, k: nat, start: seq<byte>, end: seq<byte>): bool
    requires k <= |s|
  {
    if k == 0 then false
    else if IsMarker(start, s[k - 1].name) then true
    else if IsMarker(end, s[k - 1].name) then false
    else MarkedBefore(s, k - 1, start, end)
  }

  /** No start or end marker among s[lo+1..k]. */
  ghost predicate NoMarkerBetween(s: seq<Lump>, lo: int, k: nat, start: seq<byte>, end: seq<byte>)
    requires -1 <= lo && k <= |s|
  {
    forall m :: lo < m < k ==> !IsMarker(start, s[m].name) && !IsMarker(end, s[m].name)
  }

  /** A start marker with no marker after it up to k puts the scan inside a marked block at k. */
  lemma {:induction false} StartReaches(s: seq<Lump>, j: nat, k: nat, start: seq<byte>, end: seq<byte>)
    requires j < k <= |s| && IsMarker(start, s[j].name) && NoMarkerBetween(s, j, k, start, end)
    ensures MarkedBefore(s, k, start, end)
    decreases k
  {
    if j < k - 1 {
      assert NoMarkerBetween(s, j, k - 1, start, end);
      StartReaches(s, j, k - 1, start, end);
      assert !IsMarker(start, s[k - 1].name) && !IsMarker(end, s[k - 1].name);
    }
  }

  /** Inside a marked block, the start marker j opened it with no marker since. */
  lemma {:induction false} MarkedHasStart(s: seq<Lump>, k: nat, start: seq<byte>, end: seq<byte>) returns (j: nat)
    requires k <= |s| && MarkedBefore(s, k, start, end)
    ensures j < k && IsMarker(start, s[j].name) && NoMarkerBetween(s, j, k, start, end)
  {
    if IsMarker(start, s[k - 1].name) {
      j := k - 1;
    } else {
      assert !IsMarker(end, s[k - 1].name) && MarkedBefore(s, k - 1, start, end);
      j := MarkedHasStart(s, k - 1, start, end);
      assert NoMarkerBetween(s, j, k, start, end);
    }
  }

  /**
   * The scan is inside a marked block exactly when some start marker comes
   * before k with no start or end marker between it and k.
   */
  lemma MarkedBeforeMeans(s: seq<Lump>, k: nat, start: seq<byte>, end: seq<byte>)
    requires k <= |s|
    ensures MarkedBefore(s, k, start, end) <==>
      exists j :: 0 <= j < k && IsMarker(start, s[j].name) && NoMarkerBetween(s, j, k, start, end)
  {
    if MarkedBefore(s, k, start, end) {
      var j := MarkedHasStart(s, k, start, end);
    } else {
      forall j | 0 <= j < k && IsMarker(start, s[j].name)
        ensures !NoMarkerBetween(s, j, k, start, end)
      {
        if NoMarkerBetween(s, j, k, start, end) {
          StartReaches(s, j, k, start, end);
        }
      }
    }
  }

  function KindAt(s: seq<Lump>, k: nat, start: seq<byte>, end: seq<byte>): Kind
    requires k < |s|
  {
    if IsMarker(start, s[k].name) then StartMarker
    else if IsMarker(end, s[k].name) then EndMarker
    else if MarkedBefore(s, k, start, end) then Marked
    else Unmarked
  }

  /** The lumps of one kind among s[..k], in their original order. */
  function Select(s: seq<Lump>, k: nat, kind: Kind, start: seq<byte>, end: seq<byte>): seq<Lump>
    requires k <= |s|
  {
    if k == 0 then []
    else Select(s, k - 1, kind, start, end) + (if KindAt(s, k - 1, start, end) == kind then [s[k - 1]] else [])
  }

  /** The same lumps moved into namespace ns. */
  function Retag(ls: seq<Lump>, ns: Namespace): (r: seq<Lump>)
    ensures |r| == |ls|
    ensures forall j :: 0 <= j < |ls| ==> r[j] == ls[j].(ns := ns)
  {
    seq(|ls|, j requires 0 <= j < |ls| => ls[j].(ns := ns))
  }

  /**
   * The record added for the first start marker: its name copied with
   * strncpy, size 0, global namespace. The source leaves its other fields
   * unset; the model gives it no file and an empty in-memory body.
   */
  function StartSentinel(start: seq<byte>): (l: Lump)
    ensures l.name == StrNCpy(start, 8) && l.size == 0 && l.ns == Global
    ensures GoodLump(l)
  {
    StrNCpyPadded(start);
    Lump(StrNCpy(start, 8), 0, 0, -1, Some([]), Global, Predefined, 0)
  }

  /**
   * The end marker written over the record just past the coalesced lumps:
   * name, size and namespace are set, the other fields are what was there.
   */
  function EndSentinel(stale: Lump, end: seq<byte>): (l: Lump)
    ensures l.name == StrNCpy(end, 8) && l.size == 0 && l.ns == Global
    ensures l.position == stale.position && l.handle == stale.handle && l.data == stale.data
    ensures l.source == stale.source && l.locks == stale.locks
    ensures GoodLump(l)
  {
    StrNCpyPadded(end);
    stale.(name := StrNCpy(end, 8), size := 0, ns := Global)
  }

  /** The side buffer of marked lumps after scanning s[..k]. */
  function MarkedList(s: seq<Lump>, k: nat, start: seq<byte>, end: seq<byte>, ns: Namespace): seq<Lump>
    requires k <= |s|
  {
    if |Select(s, k, StartMarker, start, end)| > 0
    then [StartSentinel(start)] + Retag(Select(s, k, Marked, start, end), ns)
    else []
  }

  /**
   * Every lump has exactly one kind, and a lump is marked only after a
   * start marker.
   */
  lemma {:induction false} SelectPartition(s: seq<Lump>, k: nat, start: seq<byte>, end: seq<byte>)
    requires k <= |s|
    ensures |Select(s, k, Unmarked, start, end)| + |Select(s, k, Marked, start, end)|
      + |Select(s, k, StartMarker, start, end)| + |Select(s, k, EndMarker, start, end)| == k
    ensures MarkedBefore(s, k, start, end) ==> |Select(s, k, StartMarker, start, end)| > 0
    ensures |Select(s, k, Marked, start, end)| > 0 ==> |Select(s, k, StartMarker, start, end)| > 0
  {
    if k > 0 {
      SelectPartition(s, k - 1, start, end);
    }
  }

  /**
   * After scanning s[..k], the outside lumps, the side buffer and the end
   * sentinel to come number at most k: they fit in the directory and in a
   * side buffer of the directory's size.
   */
  lemma ScanBound(s: seq<Lump>, k: nat, start: seq<byte>, end: seq<byte>, ns: Namespace)
    requires k <= |s|
    ensures |Select(s, k, Unmarked, start, end)| + |MarkedList(s, k, start, end, ns)|
      + (if |Select(s, k, EndMarker, start, end)| > 0 then 1 else 0) <= k
  {
    SelectPartition(s, k, start, end);
  }

  /**
   * One step of the scan over s[k]: a start marker turns marking on and
   * opens the side buffer with the start sentinel the first time; an end
   * marker turns marking off and asks for the end sentinel; any other lump
   * goes to the side buffer (retagged) while marking and stays outside
   * otherwise.
   */
  lemma ScanStep(s: seq<Lump>, k: nat, start: seq<byte>, end: seq<byte>, ns: Namespace)
    requires k < |s|
    ensures MarkedBefore(s, k + 1, start, end) ==
      (IsMarker(start, s[k].name) || (!IsMarker(end, s[k].name) && MarkedBefore(s, k, start, end)))
    ensures (|Select(s, k + 1, EndMarker, start, end)| > 0) ==
      (|Select(s, k, EndMarker, start, end)| > 0 || (!IsMarker(start, s[k].name) && IsMarker(end, s[k].name)))
    ensures Select(s, k + 1, Unmarked, start, end) == Select(s, k, Unmarked, start, end) +
      (if !IsMarker(start, s[k].name) && !IsMarker(end, s[k].name) && !MarkedBefore(s, k, start, end) then [s[k]] else [])
    ensures MarkedList(s, k + 1, start, end, ns) ==
      if IsMarker(start, s[k].name) then
        (if MarkedList(s, k, start, end, ns) == [] then [StartSentinel(start)] else MarkedList(s, k, start, end, ns))
      else if IsMarker(end, s[k].name) || !MarkedBefore(s, k, start, end) then MarkedList(s, k, start, end, ns)
      else MarkedList(s, k, start, end, ns) + [s[k].(ns := ns)]
  {
    SelectPartition(s, k, start, end);
    var m := Select(s, k, Marked, start, end);
    assert Retag(m + [s[k]], ns) == Retag(m, ns) + [s[k].(ns := ns)];
  }

  /** The scan's state: the outside lumps moved down so far, the side buffer, is_marked and mark_end. */
  datatype ScanState = ScanState(unmarked: seq<Lump>, marked: seq<Lump>, isMarked: bool, markEnd: bool)

  /** The body of W_CoalesceMarkedResource's loop, applied to one lump. */
  function ScanLump(st: ScanState, l: Lump, start: seq<byte>, end: seq<byte>, ns: Namespace): (r: ScanState)
    ensures st.unmarked <= r.unmarked && |r.unmarked| <= |st.unmarked| + 1
    ensures |r.unmarked| > |st.unmarked| <==> !IsMarker(start, l.name) && !IsMarker(end, l.name) && !st.isMarked
    ensures |st.marked| > 0 ==> st.marked <= r.marked
    ensures |r.marked| > |st.marked| ==> IsMarker(start, l.name) || st.isMarked
    ensures r.isMarked <==> IsMarker(start, l.name) || (!IsMarker(end, l.name) && st.isMarked)
    ensures r.markEnd <==> st.markEnd || (!IsMarker(start, l.name) && IsMarker(end, l.name))
  {
    if IsMarker(start, l.name) then
      st.(marked := if |st.marked| == 0 then [StartSentinel(start)] else st.marked, isMarked := true)
    else if IsMarker(end, l.name) then st.(markEnd := true, isMarked := false)
    else if st.isMarked then st.(marked := st.marked + [l.(ns := ns)])
    else st.(unmarked := st.unmarked + [l])
  }

  /** The state of the loop after it has looked at s[..k]. */
  function Scan(s: seq<Lump>, k: nat, start: seq<byte>, end: seq<byte>, ns: Namespace): ScanState
    requires k <= |s|
  {
    if k == 0 then ScanState([], [], false, false)
    else ScanLump(Scan(s, k - 1, start, end, ns), s[k - 1], start, end, ns)
  }

  /** One step of the loop body keeps the state equal to the layout of the lumps seen so far. */
  lemma ScanLumpStep(s: seq<Lump>, k: nat, st: ScanState, start: seq<byte>, end: seq<byte>, ns: Namespace)
    requires k < |s|
    requires st == ScanState(Select(s, k, Unmarked, start, end),
      MarkedList(s, k, start, end, ns), MarkedBefore(s, k, start, end), |Select(s, k, EndMarker, start, end)| > 0)
    ensures ScanLump(st, s[k], start, end, ns) == ScanState(Select(s, k + 1, Unmarked, start, end),
      MarkedList(s, k + 1, start, end, ns), MarkedBefore(s, k + 1, start, end), |Select(s, k + 1, EndMarker, start, end)| > 0)
  {
    ScanStep(s, k, start, end, ns);
    if IsMarker(start, s[k].name) {
      assert |st.marked| == 0 <==> MarkedList(s, k, start, end, ns) == [];
    }
  }

  /**
   * The loop computes the layout: after s[..k] the lumps moved down are the
   * outside lumps in order, the side buffer is the start sentinel and the
   * retagged marked lumps, is_marked says whether a start marker is open,
   * and mark_end whether an end marker was seen.
   */
  lemma {:induction false} ScanMeansSelect(s: seq<Lump>, k: nat, start: seq<byte>, end: seq<byte>, ns: Namespace)
    requires k <= |s|
    ensures Scan(s, k, start, end, ns) == ScanState(Select(s, k, Unmarked, start, end),
      MarkedList(s, k, start, end, ns), MarkedBefore(s, k, start, end), |Select(s, k, EndMarker, start, end)| > 0)
  {
    if k > 0 {
      var prev := Scan(s, k - 1, start, end, ns);
      ScanMeansSelect(s, k - 1, start, end, ns);
      ScanLumpStep(s, k - 1, prev, start, end, ns);
      assert Scan(s, k, start, end, ns) == ScanLump(prev, s[k - 1], start, end, ns);
    }
  }

  /**
   * W_CoalesceMarkedResource's directory: outside lumps, start sentinel,
   * retagged marked lumps, end sentinel (over the stale record at that
   * position).
   */
  function Coalesced(s: seq<Lump>, start: seq<byte>, end: seq<byte>, ns: Namespace): seq<Lump> {
    var head := Select(s, |s|, Unmarked, start, end) + MarkedList(s, |s|, start, end, ns);
    ScanBound(s, |s|, start, end, ns);
    if |Select(s, |s|, EndMarker, start, end)| > 0 then head + [EndSentinel(s[|head|], end)]
    else head
  }

  /**
   * The directory W_CoalesceMarkedResource leaves, read off the loop's
   * final state: the lumps moved down, the side buffer copied behind them,
   * and the end sentinel over the next record when an end marker was seen.
   */
  function ScanResult(s: seq<Lump>, start: seq<byte>, end: seq<byte>, ns: Namespace): (r: seq<Lump>)
    requires var st := Scan(s, |s|, start, end, ns);
      |st.unmarked| + |st.marked| + (if st.markEnd then 1 else 0) <= |s|
  {
    var st := Scan(s, |s|, start, end, ns);
    var head := st.unmarked + st.marked;
    if st.markEnd then head + [EndSentinel(s[|head|], end)] else head
  }

  /** The loop's result is the coalesced layout, and it keeps every record well formed. */
  lemma ScanResultCoalesced(s: seq<Lump>, start: seq<byte>, end: seq<byte>, ns: Namespace)
    ensures var st := Scan(s, |s|, start, end, ns);
      |st.unmarked| + |st.marked| + (if st.markEnd then 1 else 0) <= |s|
    ensures ScanResult(s, start, end, ns) == Coalesced(s, start, end, ns)
    ensures AllGood(s) ==> AllGood(ScanResult(s, start, end, ns))
  {
    ScanMeansSelect(s, |s|, start, end, ns);
    ScanBound(s, |s|, start, end, ns);
    if AllGood(s) {
      CoalescedGood(s, start, end, ns);
    }
  }

  /**
   * The new count is the old count less every marker, plus one record per
   * kind of marker seen: it never grows, and a non-empty directory stays
   * non-empty.
   */
  lemma CoalescedCount(s: seq<Lump>, start: seq<byte>, end: seq<byte>, ns: Namespace)
    ensures var starts := |Select(s, |s|, StartMarker, start, end)|;
      var ends := |Select(s, |s|, EndMarker, start, end)|;
      |Coalesced(s, start, end, ns)| ==
        |s| - starts - ends + (if starts > 0 then 1 else 0) + (if ends > 0 then 1 else 0)
    ensures |Coalesced(s, start, end, ns)| <= |s|
    ensures |s| > 0 ==> |Coalesced(s, start, end, ns)| > 0
  {
    SelectPartition(s, |s|, start, end);
  }

  /** Every selected lump has the kind it was selected for and comes from s. */
  lemma {:induction false} SelectKinds(s: seq<Lump>, k: nat, kind: Kind, start: seq<byte>, end: seq<byte>)
    requires k <= |s|
    ensures forall x :: x in Select(s, k, kind, start, end) ==> x in s[..k]
    ensures kind == Unmarked || kind == Marked ==>
      forall x :: x in Select(s, k, kind, start, end) ==> !IsMarker(start, x.name) && !IsMarker(end, x.name)
  {
    if k > 0 {
      SelectKinds(s, k - 1, kind, start, end);
      assert s[..k] == s[..k - 1] + [s[k - 1]];
    }
  }

  /**
   * The coalesced directory block by block: the outside lumps, then (only
   * if a start marker was seen) the start sentinel and the marked lumps in
   * namespace ns, then (only if an end marker was seen) a global, empty
   * record named after the end marker.
   */
  lemma CoalescedLayout(s: seq<Lump>, start: seq<byte>, end: seq<byte>, ns: Namespace)
    ensures var u := Select(s, |s|, Unmarked, start, end);
      var m := Select(s, |s|, Marked, start, end);
      var starts := |Select(s, |s|, StartMarker, start, end)|;
      var ends := |Select(s, |s|, EndMarker, start, end)|;
      var r := Coalesced(s, start, end, ns);
      && |r| == |u| + (if starts > 0 then 1 + |m| else 0) + (if ends > 0 then 1 else 0)
      && r[..|u|] == u
      && (starts == 0 ==> m == [])
      && (starts > 0 ==> r[|u|] == StartSentinel(start) && r[|u| + 1..|u| + 1 + |m|] == Retag(m, ns))
      && (ends > 0 ==> r[|r| - 1].name == StrNCpy(end, 8) && r[|r| - 1].size == 0 && r[|r| - 1].ns == Global)
  {
    SelectPartition(s, |s|, start, end);
    var u := Select(s, |s|, Unmarked, start, end);
    var m := Select(s, |s|, Marked, start, end);
    var ml := MarkedList(s, |s|, start, end, ns);
    var head := u + ml;
    var r := Coalesced(s, start, end, ns);
    assert r[..|head|] == head;
    assert r[..|u|] == head[..|u|] == u;
    if |Select(s, |s|, StartMarker, start, end)| > 0 {
      assert ml == [StartSentinel(start)] + Retag(m, ns);
      assert r[|u|] == head[|u|] == ml[0];
      assert r[|u| + 1..|u| + 1 + |m|] == head[|u| + 1..] == ml[1..];
    }
  }

  /**
   * The marker lumps are dropped: every outside or marked lump comes from
   * the original directory and is neither a start nor an end marker.
   */
  lemma MarkersDropped(s: seq<Lump>, start: seq<byte>, end: seq<byte>)
    ensures forall x :: x in Select(s, |s|, Unmarked, start, end) ==>
      x in s && !IsMarker(start, x.name) && !IsMarker(end, x.name)
    ensures forall x :: x in Select(s, |s|, Marked, start, end) ==>
      x in s && !IsMarker(start, x.name) && !IsMarker(end, x.name)
  {
    SelectKinds(s, |s|, Unmarked, start, end);
    SelectKinds(s, |s|, Marked, start, end);
    assert s[..|s|] == s;
  }

  lemma {:induction false} SelectGood(s: seq<Lump>, k: nat, kind: Kind, start: seq<byte>, end: seq<byte>)
    requires k <= |s| && AllGood(s)
    ensures AllGood(Select(s, k, kind, start, end))
  {
    if k > 0 {
      SelectGood(s, k - 1, kind, start, end);
    }
  }

  /** Coalescing keeps every record well formed. */
  lemma CoalescedGood(s: seq<Lump>, start: seq<byte>, end: seq<byte>, ns: Namespace)
    requires AllGood(s)
    ensures AllGood(Coalesced(s, start, end, ns))
  {
    SelectGood(s, |s|, Unmarked, start, end);
    SelectGood(s, |s|, Marked, start, end);
    assert AllGood(Retag(Select(s, |s|, Marked, start, end), ns));
    assert AllGood(MarkedList(s, |s|, start, end, ns));
  }

  lemma {:induction false} SelectUnlocked(s: seq<Lump>, k: nat, kind: Kind, start: seq<byte>, end: seq<byte>)
    requires k <= |s| && Unlocked(s)
    ensures Unlocked(Select(s, k, kind, start, end))
  {
    if k > 0 {
      SelectUnlocked(s, k - 1, kind, start, end);
    }
  }

  /**
   * Coalescing locks nothing: the start sentinel is built unlocked and the
   * end sentinel keeps the lock count of the record it overwrites.
   */
  lemma CoalescedUnlocked(s: seq<Lump>, start: seq<byte>, end: seq<byte>, ns: Namespace)
    requires Unlocked(s)
    ensures Unlocked(Coalesced(s, start, end, ns))
  {
    SelectUnlocked(s, |s|, Unmarked, start, end);
    SelectUnlocked(s, |s|, Marked, start, end);
    assert Unlocked(Retag(Select(s, |s|, Marked, start, end), ns));
    var head := Select(s, |s|, Unmarked, start, end) + MarkedList(s, |s|, start, end, ns);
    assert Unlocked(head);
    if |Select(s, |s|, EndMarker, start, end)| > 0 {
      ScanBound(s, |s|, start, end, ns);
      assert EndSentinel(s[|head|], end).locks == 0;
    }
  }

  /** A record named by strncpy from a marker is that marker: the sentinels are markers again. */
  lemma {:induction false} SentinelNameIsMarker(marker: seq<byte>, i: nat)
    requires i <= 8
    requires forall j :: 0 <= j < i ==> At(marker, j) != NUL
    ensures CaseEqFrom(StrNCpy(marker, 8), marker, i, 8)
    ensures i == 0 ==> IsMarker(marker, StrNCpy(marker, 8))
    decreases 8 - i
  {
    var name := StrNCpy(marker, 8);
    if i < 8 {
      if At(marker, i) == NUL {
        assert !NoNulUpTo(marker, i);
      } else {
        assert NoNulUpTo(marker, i);
        SentinelNameIsMarker(marker, i + 1);
      }
    }
  }

  /** `SS_START` (first byte doubled) counts as the marker S_START. */
  lemma DoubledFirstByteIsMarker()
    ensures IsMarker(S_START, Ascii("SS_START"))
  {
    var name := Ascii("SS_START");
    assert name[1..] == S_START;
    CaseEqReflexive(S_START, 0, 7);
  }

  /** The first byte is compared exactly: `ss_start` is not a marker, although `s_start` is. */
  lemma FirstByteIsCaseSensitive()
    ensures !IsMarker(S_START, Ascii("ss_start"))
    ensures IsMarker(S_START, Ascii("s_start") + [0])
  {
    var name := Ascii("ss_start");
    assert Lower(At(name, 1)) != Lower(At(S_START, 1));
    var low := Ascii("s_start") + [0];
    assert CaseEqFrom(low, S_START, 7, 8);
    assert CaseEqFrom(low, S_START, 6, 8);
    assert CaseEqFrom(low, S_START, 5, 8);
    assert CaseEqFrom(low, S_START, 4, 8);
    assert CaseEqFrom(low, S_START, 3, 8);
    assert CaseEqFrom(low, S_START, 2, 8);
    assert CaseEqFrom(low, S_START, 1, 8);
  }
}
