/**
 * Wallet resynchronisation after a chain reorganisation: search backwards through the
 * recorded changes for a block the daemon still has, then drop everything above it.
 */
module Resync {
  import opened Base

  type Hash = seq<Byte>

  /** What the wallet stores: block hashes by topoheight, and its own position. */
  datatype Storage = Storage(changes: map<nat, Hash>, synced: Option<nat>, top: Option<Hash>)

  /** The daemon during one call: its tip, its pruning point and its chain by topoheight. */
  datatype Daemon = Daemon(topoheight: nat, topHash: Hash, pruned: nat, sameNetwork: bool, chain: map<nat, Hash>)

  datatype Error = NetworkMismatch | StorageError | ApiError

  /** Daemon topoheight, daemon top hash, and the topoheight the wallet resumes from. */
  type Position = (nat, Hash, nat)

  /** The highest recorded topoheight strictly below `max`; 0 when there is none. */
  function HighestBelow(keys: set<nat>, max: nat): (h: nat)
    ensures h < max || h == 0
    ensures h != 0 ==> h in keys
    ensures forall k :: k in keys && h < k ==> k >= max
  {
    if max <= 1 then 0
    else if max - 1 in keys then max - 1
    else HighestBelow(keys, max - 1)
  }

  datatype Found =
    | Match(height: nat)
    | Scratch
    | BelowPruned
    | Unavailable

  /** The search loop, started at `max`. */
  function Search(changes: map<nat, Hash>, d: Daemon, max: nat): Found
    decreases max
  {
    var h := HighestBelow(changes.Keys, max);
    if h == 0 then Scratch
    else if h < d.pruned then BelowPruned
    else if h !in d.chain then Unavailable
    else if d.chain[h] == changes[h] then Match(h)
    else Search(changes, d, h - 1)
  }

  function Landing(f: Found, d: Daemon): (h: nat) {
    match f
    case Match(height) => height
    case Scratch => 0
    case _ => d.pruned
  }

  function CleanUp(s: Storage, height: nat, hash: Hash): Storage {
    var kept := map k | k in s.changes && k <= height :: s.changes[k];
    Storage(if height in kept then kept else kept[height := hash], Some(height), Some(hash))
  }

  /** Searching from `synced`, then cleaning up. */
  function Relocate(s: Storage, d: Daemon, synced: nat): (Result<Position, Error>, Storage) {
    var f := Search(s.changes, d, synced);
    var h := Landing(f, d);
    if f.Unavailable? || h !in d.chain then (Err(ApiError), s)
    else (Ok((d.topoheight, d.topHash, h)), CleanUp(s, h, d.chain[h]))
  }

  /** The whole of `locate_sync_topoheight_and_clean`. */
  function Locate(s: Storage, d: Daemon): (Result<Position, Error>, Storage) {
    if !d.sameNetwork then (Err(NetworkMismatch), s)
    else if s.top.None? then Relocate(s, d, if s.synced.Some? then s.synced.value else 0)
    else if s.synced.None? then (Err(StorageError), s)
    else
      var synced, top := s.synced.value, s.top.value;
      if d.topoheight == synced && d.topHash == top then (Ok((d.topoheight, d.topHash, synced)), s)
      else if synced > d.topoheight then (Ok((d.topoheight, d.topHash, 0)), s)
      else if synced > d.pruned && synced !in d.chain then (Err(ApiError), s)
      else if synced > d.pruned && d.chain[synced] == top then (Ok((d.topoheight, d.topHash, synced)), s)
      else Relocate(s, d, synced)
  }

  // ------------------------------------------------------------ the program

  class WalletStorage {
    var changes: map<nat, Hash>
    var synced: Option<nat>
    var top: Option<Hash>

    function State(): Storage
      reads this
    {
      Storage(changes, synced, top)
    }

    constructor ()
      ensures State() == Storage(map[], None, None)
    {
      changes, synced, top := map[], None, None;
    }

    /** Visits the recorded topoheights in whatever order the tree yields them. */
    method GetHighestBelow(max: nat) returns (highest: nat)
      ensures highest == HighestBelow(changes.Keys, max)
    {
      highest := 0;
      var todo := changes.Keys;
      while todo != {}
        invariant todo <= changes.Keys
        invariant highest == 0 || (highest in changes && highest < max)
        invariant forall k :: k in changes && k !in todo && highest < k ==> k >= max
      {
        var topo :| topo in todo;
        todo := todo - {topo};
        if topo > highest && topo < max {
          highest := topo;
        }
      }
      HighestIsUnique(changes.Keys, max, highest);
    }

    method DeleteChangesAbove(height: nat) returns (deleted: bool)
      modifies `changes
      ensures changes == map k | k in old(changes) && k <= height :: old(changes)[k]
      ensures deleted <==> exists k :: k in old(changes) && k > height
    {
      deleted := false;
      var todo := changes.Keys;
      while todo != {}
        invariant todo <= changes.Keys <= old(changes).Keys
        invariant forall k :: k in changes ==> changes[k] == old(changes)[k]
        invariant forall k :: k in old(changes) && k <= height ==> k in changes
        invariant forall k :: k in changes && k !in todo ==> k <= height
        invariant deleted <==> exists k :: k in old(changes) && k > height && k !in changes
      {
        var topo :| topo in todo;
        todo := todo - {topo};
        if topo > height {
          changes := changes - {topo};
          deleted := true;
          assert topo in old(changes) && topo !in changes;
        }
      }
    }

    method LocateSyncTopoheightAndClean(d: Daemon) returns (r: Result<Position, Error>)
      modifies this
      ensures (r, State()) == Locate(old(State()), d)
    {
      if !d.sameNetwork {
        return Err(NetworkMismatch);
      }
      var from := 0;
      if top.Some? {
        if synced.None? {
          return Err(StorageError);
        }
        from := synced.value;
        if d.topoheight == from && d.topHash == top.value {
          return Ok((d.topoheight, d.topHash, from));
        }
        if from > d.topoheight {
          return Ok((d.topoheight, d.topHash, 0));
        }
        if from > d.pruned {
          if from !in d.chain {
            return Err(ApiError);
          }
          if d.chain[from] == top.value {
            return Ok((d.topoheight, d.topHash, from));
          }
        }
      } else if synced.Some? {
        from := synced.value;
      }
      r := SearchAndClean(d, from);
    }

    /** The search loop: where it stops, or nothing if the daemon cannot answer. */
    method SearchBack(d: Daemon, from: nat) returns (maximum: nat, blockHash: Option<Hash>, failed: bool)
      ensures failed <==> Search(changes, d, from).Unavailable?
      ensures !failed ==> maximum == Landing(Search(changes, d, from), d)
      ensures blockHash.Some? ==> maximum in d.chain && blockHash.value == d.chain[maximum]
    {
      maximum, blockHash, failed := from, None, false;
      while true
        invariant Search(changes, d, maximum) == Search(changes, d, from)
        decreases maximum
      {
        maximum := GetHighestBelow(maximum);
        if maximum == 0 {
          return;
        }
        if maximum < d.pruned {
          maximum := d.pruned;
          return;
        }
        var localHash := changes[maximum];
        if maximum !in d.chain {
          failed := true;
          return;
        }
        if d.chain[maximum] == localHash {
          blockHash := Some(localHash);
          return;
        }
        maximum := maximum - 1;
      }
    }

    /** On success the position is the daemon's block at the new height and no change above it remains. */
    method SearchAndClean(d: Daemon, from: nat) returns (r: Result<Position, Error>)
      modifies this
      ensures (r, State()) == Relocate(old(State()), d, from)
      ensures r.Err? ==> State() == old(State())
      ensures r.Ok? ==>
                var h := r.value.2;
                synced == Some(h) && h in d.chain && top == Some(d.chain[h]) && forall k :: k in changes ==> k <= h
    {
      var maximum, blockHash, failed := SearchBack(d, from);
      if failed {
        return Err(ApiError);
      }
      if blockHash.None? {
        if maximum !in d.chain {
          return Err(ApiError);
        }
        blockHash := Some(d.chain[maximum]);
      }
      CleanAbove(maximum, blockHash.value);
      r := Ok((d.topoheight, d.topHash, maximum));
    }

    method CleanAbove(height: nat, hash: Hash)
      modifies this
      ensures State() == CleanUp(old(State()), height, hash)
      ensures synced == Some(height) && top == Some(hash) && forall k :: k in changes ==> k <= height
    {
      var deleted := DeleteChangesAbove(height);
      synced := Some(height);
      top := Some(hash);
      if height !in changes {
        changes := changes[height := hash];
      }
    }
  }

  lemma HighestIsUnique(keys: set<nat>, max: nat, h: nat)
    requires h == 0 || (h in keys && h < max)
    requires forall k :: k in keys && h < k ==> k >= max
    ensures h == HighestBelow(keys, max)
  {}

  // ------------------------------------------------------------- the search

  /** A recorded change the daemon agrees with, at or above its pruning point. */
  ghost predicate Agreeing(changes: map<nat, Hash>, d: Daemon, p: nat) {
    0 < p && d.pruned <= p && p in changes && p in d.chain && d.chain[p] == changes[p]
  }

  /** The greatest agreeing change at or below `max`. */
  ghost predicate Best(changes: map<nat, Hash>, d: Daemon, max: nat, p: nat) {
    Agreeing(changes, d, p) && p <= max && forall q :: p < q <= max ==> !Agreeing(changes, d, q)
  }

  /** The daemon can answer for every recorded topoheight the search may ask about. */
  ghost predicate Answerable(changes: map<nat, Hash>, d: Daemon, max: nat) {
    forall k :: k in changes && d.pruned <= k < max ==> k in d.chain
  }

  /** How many recorded topoheights follow `p` without a gap, below `max`. */
  function Streak(keys: set<nat>, p: nat, max: nat): nat
    decreases max - p
  {
    if p + 1 < max && p + 1 in keys then 1 + Streak(keys, p + 1, max) else 0
  }

  /** A match is a recorded change below the start that the daemon agrees with. */
  lemma {:induction false} MatchAgrees(changes: map<nat, Hash>, d: Daemon, max: nat)
    ensures Search(changes, d, max).Match? ==>
              var h := Search(changes, d, max).height;
              h < max && Agreeing(changes, d, h)
    decreases max
  {
    var h := HighestBelow(changes.Keys, max);
    if h != 0 && d.pruned <= h && h in d.chain && d.chain[h] != changes[h] {
      MatchAgrees(changes, d, h - 1);
    }
  }

  lemma {:induction false} StreakStops(keys: set<nat>, p: nat, h: nat, max: nat)
    requires p <= h < max && forall k :: h < k < max ==> k !in keys
    ensures Streak(keys, p, max) == Streak(keys, p, h + 1)
    decreases h - p
  {
    if p < h && p + 1 in keys { StreakStops(keys, p + 1, h, max); }
  }

  /** Looking at `h` and skipping `h - 1` shortens an unbroken streak by two and leaves a broken one alone. */
  lemma {:induction false} StreakParity(keys: set<nat>, p: nat, h: nat)
    requires p + 1 < h && h in keys
    ensures Streak(keys, p, h + 1) % 2 == Streak(keys, p, h - 1) % 2
    decreases h - p
  {
    if p + 1 in keys {
      if p + 2 < h {
        StreakParity(keys, p + 1, h);
      } else {
        assert Streak(keys, p + 1, h + 1) == 1 + Streak(keys, h, h + 1);
      }
    }
  }

  /** One look of the search: it matches at `p`, or goes on below a height above `p`. */
  lemma OneLook(changes: map<nat, Hash>, d: Daemon, max: nat, p: nat, h: nat)
    requires Best(changes, d, max, p) && Answerable(changes, d, max) && p < max && h == HighestBelow(changes.Keys, max)
    ensures p <= h < max
    ensures h == p ==> Search(changes, d, max) == Match(p)
    ensures h != p ==> Search(changes, d, max) == Search(changes, d, h - 1)
    ensures h != p ==> Best(changes, d, h - 1, p) && Answerable(changes, d, h - 1)
  {
    assert Agreeing(changes, d, p);
    if h != p {
      assert !Agreeing(changes, d, h);
    }
  }

  /**
   * The search returns the greatest agreeing change if and only if that change lies strictly
   * below the starting height and an even number of recorded heights follows it without a gap.
   */
  lemma {:induction false} FindsBestExactlyWhen(changes: map<nat, Hash>, d: Daemon, max: nat, p: nat)
    requires Best(changes, d, max, p) && Answerable(changes, d, max)
    ensures Search(changes, d, max) == Match(p) <==> p < max && Streak(changes.Keys, p, max) % 2 == 0
    decreases max
  {
    var keys := changes.Keys;
    if p == max {
      MatchAgrees(changes, d, max);
    } else {
      var h := HighestBelow(keys, max);
      OneLook(changes, d, max, p, h);
      StreakStops(keys, p, h, max);
      if h == p + 1 {
        MatchAgrees(changes, d, p);
        assert Streak(keys, h, h + 1) == 0;
      } else if h != p {
        FindsBestExactlyWhen(changes, d, h - 1, p);
        StreakParity(keys, p, h);
      }
    }
  }

  /** A missed change does not stop the search: it goes on as if started there. */
  lemma {:induction false} MissedGoesBelow(changes: map<nat, Hash>, d: Daemon, max: nat, p: nat)
    requires Best(changes, d, max, p) && Answerable(changes, d, max)
    ensures Search(changes, d, max) == Match(p) || Search(changes, d, max) == Search(changes, d, p)
    decreases max
  {
    if p < max {
      var h := HighestBelow(changes.Keys, max);
      OneLook(changes, d, max, p, h);
      if h != p {
        MissedGoesBelow(changes, d, h - 1, p);
      }
    }
  }

  /**
   * The call lands on the greatest agreeing change if and only if the search finds it, or it is
   * the pruning point and some height below it is recorded.
   */
  lemma LandsOnBestExactlyWhen(changes: map<nat, Hash>, d: Daemon, max: nat, p: nat)
    requires Best(changes, d, max, p) && Answerable(changes, d, max)
    ensures Landing(Search(changes, d, max), d) == p <==>
            (p < max && Streak(changes.Keys, p, max) % 2 == 0) || (p == d.pruned && exists k :: k in changes && 0 < k < p)
  {
    FindsBestExactlyWhen(changes, d, max, p);
    if Search(changes, d, max) != Match(p) {
      MissedGoesBelow(changes, d, max, p);
      MatchAgrees(changes, d, p);
      if p == d.pruned {
        SearchBelowStop(changes, d, p);
        NoneBelow(changes.Keys, p);
      }
    } else if p == d.pruned {
      assert Landing(Search(changes, d, max), d) == p;
    }
  }

  /** Four recorded heights, of which the daemon still has the second one only. */
  function ExampleStorage(): Storage {
    Storage(map[1 := [1], 2 := [2], 3 := [3], 4 := [4]], Some(4), Some([4]))
  }

  function ExampleDaemon(): Daemon {
    Daemon(5, [50], 0, true, map[0 := [0], 1 := [10], 2 := [2], 3 := [30], 4 := [40], 5 := [50]])
  }

  lemma ExampleSearch()
    ensures var changes, d := ExampleStorage().changes, ExampleDaemon();
            Best(changes, d, 4, 2) && Search(changes, d, 4) == Scratch
  {
    var changes, d := ExampleStorage().changes, ExampleDaemon();
    assert [10] != [1] by { assert [10][0] != [1][0]; }
    assert [30] != [3] by { assert [30][0] != [3][0]; }
    assert [40] != [4] by { assert [40][0] != [4][0]; }
    assert !Agreeing(changes, d, 3) && !Agreeing(changes, d, 4);
    assert HighestBelow(changes.Keys, 4) == 3 && HighestBelow(changes.Keys, 2) == 1;
    assert Search(changes, d, 0) == Scratch;
    assert Search(changes, d, 2) == Search(changes, d, 0);
  }

  /**
   * With a consistent daemon that has not pruned, the whole call returns to height 0 and deletes
   * the change at height 2, on which wallet and daemon agree.
   */
  lemma BestIsMissed()
    ensures
      var s, d := ExampleStorage(), ExampleDaemon();
      && Consistent(d) && Answerable(s.changes, d, 4) && Best(s.changes, d, 4, 2)
      && var (r, s') := Locate(s, d);
      r == Ok((5, [50], 0)) && s'.synced == Some(0) && s'.changes.Keys == {0}
  {
    var s, d := ExampleStorage(), ExampleDaemon();
    ExampleSearch();
    assert [40] != [4] by { assert [40][0] != [4][0]; }
    assert Locate(s, d) == Relocate(s, d, 4);
    CleanUpHolds(s, d, 4);
    assert (set k | k in s.changes && k <= 0) == {};
  }

  // ------------------------------------------------------------ the clean-up

  /**
   * Every exit through the clean-up leaves no change above the new height, keeps every change up
   * to it, and stores the daemon's own block at that height as the wallet's position.
   */
  lemma CleanUpHolds(s: Storage, d: Daemon, synced: nat)
    requires Relocate(s, d, synced).0.Ok?
    ensures
      var (r, s') := Relocate(s, d, synced);
      var h := r.value.2;
      && h == Landing(Search(s.changes, d, synced), d) && h in d.chain
      && s'.synced == Some(h) && s'.top == Some(d.chain[h])
      && (forall k :: k in s'.changes ==> k <= h)
      && (forall k :: k in s.changes && k <= h ==> k in s'.changes && s'.changes[k] == s.changes[k])
      && s'.changes.Keys == (set k | k in s.changes && k <= h) + {h}
  {
    var h := Landing(Search(s.changes, d, synced), d);
    var s' := CleanUp(s, h, d.chain[h]);
    assert s'.changes.Keys == (set k | k in s.changes && k <= h) + {h};
  }

  /**
   * The change recorded at the new height carries the daemon's hash unless the search fell back to
   * the pruning point or to height 0 and a different hash was already recorded there.
   */
  lemma RecordedHashIsDaemons(s: Storage, d: Daemon, synced: nat)
    requires Relocate(s, d, synced).0.Ok?
    ensures
      var f := Search(s.changes, d, synced);
      var h := Landing(f, d);
      && h in d.chain && h in Relocate(s, d, synced).1.changes
      && (Relocate(s, d, synced).1.changes[h] == d.chain[h] <==>
            f.Match? || h !in s.changes || s.changes[h] == d.chain[h])
  {
    MatchAgrees(s.changes, d, synced);
    CleanUpHolds(s, d, synced);
  }

  /** Errors and the three early exits leave the storage as it was. */
  lemma OnlyCleanUpChanges(s: Storage, d: Daemon)
    ensures
      var (r, s') := Locate(s, d);
      || s' == s
      || (r.Ok? && s'.synced == Some(r.value.2) && r.value.2 in d.chain && s'.top == Some(d.chain[r.value.2])
          && forall k :: k in s'.changes ==> k <= r.value.2)
  {
    if d.sameNetwork && Locate(s, d).1 != s {
      var from := if s.synced.Some? then s.synced.value else 0;
      CleanUpHolds(s, d, from);
    }
  }

  // --------------------------------------------------------- calling it again

  /**
   * What the whole call does, by the state of the stored position. It is left alone while it is
   * the daemon's tip or a block above the pruning point that the daemon still has; above the
   * tip the wallet is told to start over, and nothing is deleted yet; otherwise the search runs.
   */
  lemma OutcomeByPosition(s: Storage, d: Daemon)
    requires d.sameNetwork && Consistent(d) && s.top.Some? && s.synced.Some?
    ensures
      var h := s.synced.value;
      var kept := h in d.chain && d.chain[h] == s.top.value && (h == d.topoheight || h > d.pruned);
      && (kept ==> Locate(s, d) == (Ok((d.topoheight, d.topHash, h)), s))
      && (h > d.topoheight ==> Locate(s, d) == (Ok((d.topoheight, d.topHash, 0)), s))
      && (!kept && h <= d.topoheight && (h <= d.pruned || h in d.chain) ==> Locate(s, d) == Relocate(s, d, h))
      && (!kept && h <= d.topoheight && h > d.pruned && h !in d.chain ==> Locate(s, d) == (Err(ApiError), s))
  {}

  /** Without a stored top hash the search starts from the stored height, or from 0. */
  lemma OutcomeWithoutTop(s: Storage, d: Daemon)
    requires s.top.None?
    ensures d.sameNetwork ==> Locate(s, d) == Relocate(s, d, if s.synced.Some? then s.synced.value else 0)
    ensures !d.sameNetwork ==> Locate(s, d) == (Err(NetworkMismatch), s)
  {}

  /** Nothing above the tip, and the tip is the block at its topoheight. */
  ghost predicate Consistent(d: Daemon) {
    d.topoheight in d.chain && d.chain[d.topoheight] == d.topHash && forall k :: k in d.chain ==> k <= d.topoheight
  }

  lemma NoneBelow(keys: set<nat>, max: nat)
    ensures HighestBelow(keys, max) == 0 <==> forall k :: k in keys && 0 < k ==> k >= max
  {}

  lemma CleanUpTwice(s: Storage, h: nat, hash: Hash)
    ensures CleanUp(CleanUp(s, h, hash), h, hash) == CleanUp(s, h, hash)
  {
    var once := CleanUp(s, h, hash);
    assert forall k :: k in once.changes ==> k <= h;
    assert (map k | k in once.changes && k <= h :: once.changes[k]) == once.changes;
  }

  /** What a search strictly below the place it stopped at finds, when that place is at most the pruning point. */
  lemma SearchBelowStop(changes: map<nat, Hash>, d: Daemon, h: nat)
    requires h <= d.pruned
    ensures Search(changes, d, h) == if HighestBelow(changes.Keys, h) == 0 then Scratch else BelowPruned
  {}

  /**
   * A second call, the daemon unchanged, stays where the first one landed if and only if that is
   * the tip, above the pruning point, zero, or above some other recorded height; otherwise the
   * search, which never looks at its own starting height, falls back to scratch.
   */
  lemma SecondCallStays(s: Storage, d: Daemon, synced: nat)
    requires d.sameNetwork && Consistent(d) && Relocate(s, d, synced).0.Ok?
    ensures
      var (r, s') := Relocate(s, d, synced);
      var h := r.value.2;
      Locate(s', d) == (Ok((d.topoheight, d.topHash, h)), s') <==>
      h == d.topoheight || h > d.pruned || h == 0 || exists k :: k in s.changes && 0 < k < h
  {
    var (r, s') := Relocate(s, d, synced);
    var h := r.value.2;
    CleanUpHolds(s, d, synced);
    CleanUpTwice(s, h, d.chain[h]);
    NoneBelow(s'.changes.Keys, h);
    if h != d.topoheight && h <= d.pruned {
      SearchBelowStop(s'.changes, d, h);
      LandsAtLeastPruned(s.changes, d, synced);
    }
  }

  lemma LandsAtLeastPruned(changes: map<nat, Hash>, d: Daemon, max: nat)
    ensures var h := Landing(Search(changes, d, max), d); h == 0 || h >= d.pruned
  {
    MatchAgrees(changes, d, max);
  }
}
