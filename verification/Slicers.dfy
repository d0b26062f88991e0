/** The slicer-diversity waterfall (rtp_listener in src/stream.rs, save_slicer and load_slicer in
    src/store.rs): per-slicer hits of the open 15-second window, of the last ten windows, and for
    life. Row timestamps are left out. */
module Slicers {
  import opened Types
  import opened StoreTables

  const ROWS := 10

  type Row = seq<nat>

  /** Bit s of the 16-bit mask: slicer s decoded the frame. */
  predicate Bit(mask: bv16, s: nat)
    requires s < 16
  {
    mask & (1 << s) != 0
  }

  function At(row: Row, s: nat): nat {
    if s < |row| then row[s] else 0
  }

  /** The hits of slicer s in all these rows. */
  ghost function Hits(rows: seq<Row>, s: nat): nat {
    if rows == [] then 0 else Hits(rows[..|rows| - 1], s) + At(rows[|rows| - 1], s)
  }

  lemma HitsSnoc(rows: seq<Row>, row: Row, s: nat)
    ensures Hits(rows + [row], s) == Hits(rows, s) + At(row, s)
  {
  }

  lemma {:induction false} HitsDropFirst(rows: seq<Row>, s: nat)
    requires rows != []
    ensures Hits(rows, s) == At(rows[0], s) + Hits(rows[1..], s)
  {
    var n := |rows| - 1;
    if n == 0 {
    } else {
      HitsDropFirst(rows[..n], s);
      assert rows[..n][1..] == rows[1..][..n - 1];
    }
  }

  /** At most ten rows, each from before the bank was known or as wide as the bank. */
  ghost predicate RowsFit(rows: seq<Row>, count: nat) {
    |rows| <= 10 && forall i :: 0 <= i < |rows| ==> |rows[i]| == 0 || |rows[i]| == count
  }

  /** Lifetime hits are never below what the waterfall shows plus the open window. */
  ghost predicate Covers(lifetime: seq<nat>, rows: seq<Row>, open: Row) {
    forall s :: 0 <= s < |lifetime| ==> Hits(rows, s) + At(open, s) <= lifetime[s]
  }

  /** Lifetime hits are exactly the value at learning plus all windows since, plus the open one. */
  ghost predicate Accounts(lifetime: seq<nat>, base: seq<nat>, windows: seq<Row>, open: Row) {
    |base| == |lifetime| && forall s :: 0 <= s < |lifetime| ==> lifetime[s] == base[s] + Hits(windows, s) + At(open, s)
  }

  ghost predicate SavedFits(v: SavedSlicer) {
    RowsFit(v.history, |v.lifetimeHits|) && Covers(v.lifetimeHits, v.history, [])
  }

  function Zeros(n: nat): (r: Row)
    ensures |r| == n && forall i :: 0 <= i < n ==> r[i] == 0
  {
    seq(n, _ => 0)
  }

  /** The waterfall after a window is pushed and the oldest row beyond ten dropped. */
  function Rolled(rows: seq<Row>, row: Row): seq<Row> {
    var pushed := rows + [row];
    if |pushed| > ROWS then pushed[1..] else pushed
  }

  lemma RolledFits(rows: seq<Row>, row: Row, lifetime: seq<nat>)
    requires RowsFit(rows, |lifetime|) && |row| == |lifetime| && Covers(lifetime, rows, row)
    ensures RowsFit(Rolled(rows, row), |lifetime|)
    ensures Covers(lifetime, Rolled(rows, row), []) && Covers(lifetime, Rolled(rows, row), Zeros(|lifetime|))
  {
    var pushed := rows + [row];
    forall s | 0 <= s < |lifetime|
      ensures Hits(Rolled(rows, row), s) <= lifetime[s]
    {
      HitsSnoc(rows, row, s);
      HitsDropFirst(pushed, s);
    }
  }

  /** The visible rows are the last ten of those taken over and the windows since. */
  ghost predicate ShowsLast(history: seq<Row>, takenOver: seq<Row>, windows: seq<Row>) {
    var all := takenOver + windows;
    history == if |all| <= 10 then all else all[|all| - 10..]
  }

  lemma RolledShowsLast(history: seq<Row>, takenOver: seq<Row>, windows: seq<Row>, row: Row)
    requires ShowsLast(history, takenOver, windows)
    ensures ShowsLast(Rolled(history, row), takenOver, windows + [row])
    ensures Rolled(history, row) == (if |history| < 10 then history else history[1..]) + [row]
  {
    var all := takenOver + windows;
    assert takenOver + (windows + [row]) == all + [row];
    if |all| >= 10 {
      assert (all + [row])[|all| - 9..] == all[|all| - 9..] + [row];
    }
  }

  lemma ClosedWindowAccounts(lifetime: seq<nat>, base: seq<nat>, windows: seq<Row>, open: Row)
    requires Accounts(lifetime, base, windows, open) && |open| == |lifetime|
    ensures Accounts(lifetime, base, windows + [open], Zeros(|lifetime|))
  {
  }

  lemma {:induction false} EmptyRowsHitNothing(rows: seq<Row>, s: nat)
    requires forall i :: 0 <= i < |rows| ==> rows[i] == []
    ensures Hits(rows, s) == 0
  {
    if rows == [] {
    } else {
      EmptyRowsHitNothing(rows[..|rows| - 1], s);
    }
  }

  class SlicerBank {
    var slicerCount: nat
    var interval: Row
    var history: seq<Row>
    var lifetimeHits: seq<nat>
    var restored: Option<SavedSlicer>
    ghost var base: seq<nat>         // lifetime hits when the bank was learned
    ghost var takenOver: seq<Row>    // the rows visible then
    ghost var windows: seq<Row>      // every window completed since then

    ghost predicate Valid()
      reads this
    {
      var accounts := Accounts(lifetimeHits, base, windows, interval);
      var covers := Covers(lifetimeHits, history, interval);
      var fits := RowsFit(history, slicerCount);
      && |interval| == |lifetimeHits| == slicerCount <= 16
      && accounts && covers && fits && ShowsLast(history, takenOver, windows)
      && (restored.Some? ==> SavedFits(restored.value))
    }

    /** Startup: what is saved, if it loads, is held aside. */
    constructor (store: Store, loadOk: bool)
      requires store.slicer.Some? ==> SavedFits(store.slicer.value)
      ensures Valid()
      ensures slicerCount == 0 && history == [] && restored == if loadOk then store.slicer else None
    {
      slicerCount, interval, history, lifetimeHits := 0, [], [], [];
      restored := if loadOk then store.slicer else None;
      base, takenOver, windows := [], [], [];
    }

    /** The first frame with a gain ladder of n rungs. Saved accumulators are taken over only if they
        are of that width; otherwise counting starts at zero. Either way they are used up. */
    method Learn(n: nat)
      requires Valid() && slicerCount == 0 && 0 < n <= 16
      modifies this
      ensures Valid() && slicerCount == n && interval == Zeros(n) && windows == []
      ensures var matching := old(restored).Some? && |old(restored).value.lifetimeHits| == n;
              && base == lifetimeHits == (if matching then old(restored).value.lifetimeHits else Zeros(n))
              && history == takenOver == (if matching then old(restored).value.history else old(history))
      ensures restored == None
    {
      slicerCount, interval := n, Zeros(n);
      if restored.Some? && |restored.value.lifetimeHits| == n {
        lifetimeHits, history := restored.value.lifetimeHits, restored.value.history;
      } else {
        forall s: nat
          ensures Hits(history, s) == 0
        {
          EmptyRowsHitNothing(history, s);
        }
        lifetimeHits := Zeros(n);
      }
      restored := None;
      base, takenOver, windows := lifetimeHits, history, [];
    }

    /** Counts the slicers that decoded one frame. */
    method Tally(mask: bv16)
      requires Valid()
      modifies this`interval, this`lifetimeHits
      ensures Valid()
      ensures forall s :: 0 <= s < slicerCount ==>
                var hit := if mask & (1 << s) != 0 then 1 else 0;
                interval[s] == old(interval)[s] + hit && lifetimeHits[s] == old(lifetimeHits)[s] + hit
    {
      for s := 0 to slicerCount
        invariant |interval| == |lifetimeHits| == slicerCount
        invariant forall i :: 0 <= i < s ==>
                    var hit := if Bit(mask, i) then 1 else 0;
                    interval[i] == old(interval)[i] + hit && lifetimeHits[i] == old(lifetimeHits)[i] + hit
        invariant forall i :: s <= i < slicerCount ==>
                    interval[i] == old(interval)[i] && lifetimeHits[i] == old(lifetimeHits)[i]
      {
        if Bit(mask, s) {
          interval := interval[s := interval[s] + 1];
          lifetimeHits := lifetimeHits[s := lifetimeHits[s] + 1];
        }
      }
    }

    /** Snapshots the window, keeps the last ten, opens a new one. */
    method CloseWindow()
      requires Valid()
      modifies this`interval, this`history, this`windows
      ensures Valid() && SavedFits(SavedSlicer(lifetimeHits, history))
      ensures history == (if |old(history)| < 10 then old(history) else old(history)[1..]) + [old(interval)]
      ensures windows == old(windows) + [old(interval)]
      ensures |interval| == slicerCount && forall s :: 0 <= s < slicerCount ==> interval[s] == 0
    {
      RolledFits(history, interval, lifetimeHits);
      RolledShowsLast(history, takenOver, windows, interval);
      ClosedWindowAccounts(lifetimeHits, base, windows, interval);
      history := history + [interval];
      if |history| > ROWS {
        history := history[1..];
      }
      windows := windows + [interval];
      interval := Zeros(|interval|);
    }

    /** The tick: close the window, persist once the bank is known. */
    method OnTick(store: Store, saveOk: bool)
      requires Valid()
      modifies this`interval, this`history, this`windows, store`slicer
      ensures Valid()
      ensures history == (if |old(history)| < 10 then old(history) else old(history)[1..]) + [old(interval)]
      ensures windows == old(windows) + [old(interval)]
      ensures |interval| == slicerCount && forall s :: 0 <= s < slicerCount ==> interval[s] == 0
      ensures store.slicer == (if slicerCount > 0 && saveOk then Some(SavedSlicer(lifetimeHits, history))
                               else old(store.slicer))
      ensures slicerCount > 0 && saveOk ==> SavedFits(store.slicer.value)
    {
      CloseWindow();
      if slicerCount > 0 {
        store.SaveSlicer(SavedSlicer(lifetimeHits, history), saveOk);
      }
    }

    /** The final flush on shutdown keeps the hits of the window that was still open. */
    method OnShutdown(store: Store, saveOk: bool)
      requires Valid()
      modifies store`slicer
      ensures store.slicer == (if slicerCount > 0 && saveOk then Some(SavedSlicer(lifetimeHits, history))
                               else old(store.slicer))
      ensures slicerCount > 0 && saveOk ==> SavedFits(store.slicer.value)
    {
      if slicerCount > 0 {
        store.SaveSlicer(SavedSlicer(lifetimeHits, history), saveOk);
        assert Covers(lifetimeHits, history, []);
      }
    }
  }
}
