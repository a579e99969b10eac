/**
 * The energy ledger: time-locked freeze records with cached totals. Arithmetic
 * is `u64` and wraps, as it does in release builds.
 */
module Energy {
  import opened Base

  const COIN: int := 100_000_000

  type U32 = n: int | 0 <= n < TWO_32

  datatype Record = Record(amount: U64, days: U32, freezeAt: U64, unlockAt: U64, energy: U64)

  datatype Ledger = Ledger(totalEnergy: U64, usedEnergy: U64, frozenTos: U64, lastUpdate: U64, records: seq<Record>)

  datatype Outcome =
    | Energy(amount: U64)
    | Done
    | InsufficientEnergy
    | ZeroAmount
    | InsufficientFrozen
    | InsufficientUnlocked
    | IndexPanic

  function Wrap(x: int): U64 {
    x % TWO_64
  }

  function Multiplier(days: U32): U32 {
    days * 2 % TWO_32
  }

  function Whole(amount: U64): U64 {
    amount / COIN * COIN
  }

  function EnergyFor(amount: U64, days: U32): U64 {
    Wrap(amount / COIN * Multiplier(days))
  }

  predicate CanUnlock(r: Record, height: U64) {
    height >= r.unlockAt
  }

  function NewRecord(amount: U64, days: U32, height: U64): Record {
    Record(Whole(amount), days, height, Wrap(height + days * 86400), EnergyFor(Whole(amount), days))
  }

  /** Take `u` coins out of a record and recompute its energy. */
  function Reduce(r: Record, u: U64): Record {
    var rest := Wrap(r.amount - u);
    r.(amount := rest, energy := EnergyFor(rest, r.days))
  }

  function SumAmounts(rs: seq<Record>): nat {
    if rs == [] then 0 else rs[0].amount + SumAmounts(rs[1..])
  }

  function SumEnergy(rs: seq<Record>): nat {
    if rs == [] then 0 else rs[0].energy + SumEnergy(rs[1..])
  }

  function Unlockable(rs: seq<Record>, height: U64): nat {
    if rs == [] then 0
    else (if CanUnlock(rs[0], height) then rs[0].amount else 0) + Unlockable(rs[1..], height)
  }

  // --------------------------------------------- the two passes of unfreeze

  /** What the planning loop collects: indices to drop and indices to edit. */
  datatype Plan = Plan(remaining: U64, energy: U64, removed: seq<nat>, edited: seq<(nat, U64)>)

  /** The planning loop over `rs`, whose first record has index `at`. */
  function Scan(rs: seq<Record>, at: nat, remaining: U64, height: U64): Plan {
    if rs == [] then Plan(remaining, 0, [], [])
    else if !CanUnlock(rs[0], height) then Scan(rs[1..], at + 1, remaining, height)
    else if remaining == 0 then Plan(0, 0, [], [])
    else
      var u := if remaining < rs[0].amount then remaining else rs[0].amount;
      var p := Scan(rs[1..], at + 1, remaining - u, height);
      var energy := Wrap(EnergyFor(u, rs[0].days) + p.energy);
      if u == rs[0].amount then Plan(p.remaining, energy, [at] + p.removed, p.edited)
      else Plan(p.remaining, energy, p.removed, [(at, u)] + p.edited)
  }

  /** First pass: drop the marked indices, last one first. */
  function RemoveAll(rs: seq<Record>, indices: seq<nat>): seq<Record>
    requires Ascending(indices, |rs|)
    decreases |indices|
  {
    if indices == [] then rs
    else
      var i := indices[|indices| - 1];
      RemoveAll(rs[..i] + rs[i + 1..], indices[..|indices| - 1])
  }

  predicate Ascending(indices: seq<nat>, bound: nat) {
    && (forall i :: 0 <= i < |indices| ==> indices[i] < bound)
    && (forall i, j :: 0 <= i < j < |indices| ==> indices[i] < indices[j])
  }

  /** Second pass: edit by index into the list as it is now; an index past the end panics. */
  function EditAll(rs: seq<Record>, edits: seq<(nat, U64)>): Option<seq<Record>>
    decreases |edits|
  {
    if edits == [] then Some(rs)
    else
      var (i, u) := edits[|edits| - 1];
      if i >= |rs| then None
      else EditAll(rs[i := Reduce(rs[i], u)], edits[..|edits| - 1])
  }

  /** The records the first pass of a plan leaves. */
  function Kept(rs: seq<Record>, p: Plan): seq<Record> {
    if Ascending(p.removed, |rs|) then RemoveAll(rs, p.removed) else rs
  }

  function Unfreeze(l: Ledger, amount: U64, height: U64): (Outcome, Ledger) {
    var whole := Whole(amount);
    if whole == 0 then (ZeroAmount, l)
    else if l.frozenTos < whole then (InsufficientFrozen, l)
    else
      var p := Scan(l.records, 0, whole, height);
      if p.remaining > 0 then (InsufficientUnlocked, l)
      else
        var kept := Kept(l.records, p);
        match EditAll(kept, p.edited)
        case None => (IndexPanic, l.(records := kept))
        case Some(records) =>
          (Energy(p.energy),
           l.(records := records, frozenTos := l.frozenTos - whole, lastUpdate := height,
              totalEnergy := if l.totalEnergy < p.energy then 0 else l.totalEnergy - p.energy))
  }

  function Freeze(l: Ledger, amount: U64, days: U32, height: U64): Ledger {
    var r := NewRecord(amount, days, height);
    l.(records := l.records + [r], frozenTos := Wrap(l.frozenTos + r.amount),
       totalEnergy := Wrap(l.totalEnergy + r.energy), lastUpdate := height)
  }

  function Available(l: Ledger): U64 {
    if l.totalEnergy < l.usedEnergy then 0 else l.totalEnergy - l.usedEnergy
  }

  // ------------------------------------------------------------ the object

  class EnergyResource {
    var totalEnergy: U64
    var usedEnergy: U64
    var frozenTos: U64
    var lastUpdate: U64
    var records: seq<Record>

    function State(): Ledger
      reads this
    {
      Ledger(totalEnergy, usedEnergy, frozenTos, lastUpdate, records)
    }

    constructor ()
      ensures State() == Ledger(0, 0, 0, 0, []) && Sound(State())
    {
      totalEnergy, usedEnergy, frozenTos, lastUpdate, records := 0, 0, 0, 0, [];
    }

    method ConsumeEnergy(amount: U64) returns (r: Outcome)
      modifies this
      ensures r == if Available(old(State())) < amount then InsufficientEnergy else Done
      ensures State() == if r.Done? then old(State()).(usedEnergy := Wrap(old(usedEnergy) + amount)) else old(State())
      ensures r.Done? && old(usedEnergy) <= old(totalEnergy) ==> usedEnergy == old(usedEnergy) + amount <= totalEnergy
      ensures r.Done? <==> amount == 0 || old(usedEnergy) + amount <= old(totalEnergy)
    {
      if Available(State()) < amount {
        return InsufficientEnergy;
      }
      usedEnergy := Wrap(usedEnergy + amount);
      r := Done;
    }

    method FreezeTosForEnergy(amount: U64, days: U32, height: U64) returns (gained: U64)
      modifies this
      ensures State() == Freeze(old(State()), amount, days, height)
      ensures gained == NewRecord(amount, days, height).energy
    {
      var record := NewRecord(amount, days, height);
      records := records + [record];
      frozenTos := Wrap(frozenTos + record.amount);
      totalEnergy := Wrap(totalEnergy + record.energy);
      lastUpdate := height;
      gained := record.energy;
    }

    method ResetUsedEnergy(height: U64)
      modifies this
      ensures State() == old(State()).(usedEnergy := 0, lastUpdate := height)
    {
      usedEnergy, lastUpdate := 0, height;
    }

    method UnfreezeTos(amount: U64, height: U64) returns (r: Outcome)
      modifies this
      ensures (r, State()) == Unfreeze(old(State()), amount, height)
      ensures r.ZeroAmount? || r.InsufficientFrozen? || r.InsufficientUnlocked? ==> State() == old(State())
    {
      var whole := Whole(amount);
      if whole == 0 {
        return ZeroAmount;
      }
      if frozenTos < whole {
        return InsufficientFrozen;
      }
      var remaining, removedEnergy, removed, edited := PlanUnfreeze(records, whole, height);
      if remaining > 0 {
        return InsufficientUnlocked;
      }
      r := Commit(Plan(remaining, removedEnergy, removed, edited), whole, height);
    }

    /** Both passes over the records, then the totals. */
    method Commit(p: Plan, whole: U64, height: U64) returns (r: Outcome)
      requires p == Scan(records, 0, whole, height) && p.remaining == 0 && whole <= frozenTos
      modifies this
      ensures r == if EditAll(Kept(old(records), p), p.edited).Some? then Energy(p.energy) else IndexPanic
      ensures r.IndexPanic? ==> State() == old(State()).(records := Kept(old(records), p))
      ensures r.Energy? ==>
                State() == old(State()).(records := EditAll(Kept(old(records), p), p.edited).value,
                                         frozenTos := old(frozenTos) - whole, lastUpdate := height,
                                         totalEnergy := if old(totalEnergy) < p.energy then 0 else old(totalEnergy) - p.energy)
    {
      ScanShape(records, 0, whole, height);
      RemoveRecords(p.removed);
      var ok := EditRecords(p.edited);
      if !ok {
        return IndexPanic;
      }
      frozenTos := frozenTos - whole;
      totalEnergy := if totalEnergy < p.energy then 0 else totalEnergy - p.energy;
      lastUpdate := height;
      r := Energy(p.energy);
    }

    /** First pass: remove the marked indices in reverse order. */
    method RemoveRecords(removed: seq<nat>)
      requires Ascending(removed, |records|)
      modifies `records
      ensures records == RemoveAll(old(records), removed)
    {
      assert removed[..|removed|] == removed;
      var i := |removed|;
      while i > 0
        invariant 0 <= i <= |removed|
        invariant Ascending(removed[..i], |records|)
        invariant RemoveAll(records, removed[..i]) == RemoveAll(old(records), removed)
      {
        i := i - 1;
        assert removed[..i + 1][..i] == removed[..i];
        records := records[..removed[i]] + records[removed[i] + 1..];
      }
    }

    /** Second pass: edit by index in reverse order; false stands for the index panic. */
    method EditRecords(edited: seq<(nat, U64)>) returns (ok: bool)
      modifies `records
      ensures ok == EditAll(old(records), edited).Some?
      ensures ok ==> records == EditAll(old(records), edited).value
      ensures !ok && |edited| <= 1 ==> records == old(records)
    {
      assert edited[..|edited|] == edited;
      var j := |edited|;
      while j > 0
        invariant 0 <= j <= |edited|
        invariant EditAll(records, edited[..j]) == EditAll(old(records), edited)
        invariant j == |edited| ==> records == old(records)
      {
        j := j - 1;
        assert edited[..j + 1][..j] == edited[..j];
        var (index, u) := edited[j];
        if index >= |records| {
          return false;
        }
        records := records[index := Reduce(records[index], u)];
      }
      ok := true;
    }

    method GetUnlockableTos(height: U64) returns (sum: U64)
      ensures sum == Wrap(Unlockable(records, height))
      ensures SumAmounts(records) < TWO_64 ==> sum == Unlockable(records, height)
    {
      sum := 0;
      for i := 0 to |records|
        invariant Wrap(sum + Unlockable(records[i..], height)) == Wrap(Unlockable(records, height))
      {
        assert records[i..][1..] == records[i + 1..];
        if CanUnlock(records[i], height) {
          WrapAdds(Unlockable(records[i + 1..], height), sum + records[i].amount);
          sum := Wrap(sum + records[i].amount);
        }
      }
      UnlockableBounded(records, height);
    }
  }

  /** The planning loop, as the program runs it. */
  method PlanUnfreeze(records: seq<Record>, whole: U64, height: U64)
    returns (remaining: U64, energy: U64, removed: seq<nat>, edited: seq<(nat, U64)>)
    ensures Plan(remaining, energy, removed, edited) == Scan(records, 0, whole, height)
  {
    remaining, energy, removed, edited := whole, 0, [], [];
    var i := 0;
    assert records[0..] == records;
    while i < |records|
      invariant 0 <= i <= |records|
      invariant Scan(records, 0, whole, height) ==
                After(energy, removed, edited, Scan(records[i..], i, remaining, height))
    {
      var record := records[i];
      assert records[i..][0] == record && records[i..][1..] == records[i + 1..];
      if CanUnlock(record, height) {
        if remaining == 0 {
          AfterNothing(energy, removed, edited);
          return;
        }
        var u := if remaining < record.amount then remaining else record.amount;
        var e := EnergyFor(u, record.days);
        AfterStep(energy, removed, edited, i, u, e, Scan(records[i + 1..], i + 1, remaining - u, height));
        energy := Wrap(energy + e);
        remaining := remaining - u;
        if u == record.amount {
          removed := removed + [i];
        } else {
          edited := edited + [(i, u)];
        }
      }
      i := i + 1;
    }
    AfterNothing(energy, removed, edited);
  }

  /** A plan preceded by what has already been collected. */
  ghost function After(energy: U64, removed: seq<nat>, edited: seq<(nat, U64)>, p: Plan): Plan {
    Plan(p.remaining, Wrap(energy + p.energy), removed + p.removed, edited + p.edited)
  }

  lemma AfterNothing(energy: U64, removed: seq<nat>, edited: seq<(nat, U64)>)
    ensures forall r: U64 :: After(energy, removed, edited, Plan(r, 0, [], [])) == Plan(r, energy, removed, edited)
  {
    assert removed + [] == removed && edited + [] == edited;
  }

  lemma AfterStep(energy: U64, removed: seq<nat>, edited: seq<(nat, U64)>, i: nat, u: U64, e: U64, p: Plan)
    ensures After(energy, removed, edited, Plan(p.remaining, Wrap(e + p.energy), [i] + p.removed, p.edited)) ==
            After(Wrap(energy + e), removed + [i], edited, p)
    ensures After(energy, removed, edited, Plan(p.remaining, Wrap(e + p.energy), p.removed, [(i, u)] + p.edited)) ==
            After(Wrap(energy + e), removed, edited + [(i, u)], p)
  {
    WrapAdds(energy, e + p.energy);
    WrapAdds(p.energy, energy + e);
    assert removed + ([i] + p.removed) == removed + [i] + p.removed;
    assert edited + ([(i, u)] + p.edited) == edited + [(i, u)] + p.edited;
  }

  lemma WrapAdds(a: int, b: int)
    ensures Wrap(a + Wrap(b)) == Wrap(a + b)
    ensures Wrap(Wrap(b) + a) == Wrap(a + b)
  {}

  // ------------------------------------------------- what a plan looks like

  lemma {:induction false} UnlockableBounded(rs: seq<Record>, height: U64)
    ensures Unlockable(rs, height) <= SumAmounts(rs)
  {
    if rs != [] { UnlockableBounded(rs[1..], height); }
  }

  lemma {:induction false} ScanNothing(rs: seq<Record>, at: nat, height: U64)
    ensures Scan(rs, at, 0, height) == Plan(0, 0, [], [])
    decreases |rs|
  {
    if rs != [] { ScanNothing(rs[1..], at + 1, height); }
  }

  /** Marked indices ascend, are unlocked, and the one partial record comes after every removed one. */
  ghost predicate Shaped(rs: seq<Record>, at: nat, p: Plan, height: U64) {
    && Ascending(p.removed, at + |rs|)
    && (forall i :: 0 <= i < |p.removed| ==> at <= p.removed[i] && CanUnlock(rs[p.removed[i] - at], height))
    && |p.edited| <= 1
    && (p.edited != [] ==>
          var (q, u) := p.edited[0];
          && p.remaining == 0 && at <= q < at + |rs|
          && CanUnlock(rs[q - at], height) && 0 < u < rs[q - at].amount
          && forall i :: 0 <= i < |p.removed| ==> p.removed[i] < q)
  }

  lemma ShapedAfterKept(r: Record, rest: seq<Record>, at: nat, p: Plan, height: U64)
    requires Shaped(rest, at + 1, p, height)
    ensures Shaped([r] + rest, at, p, height)
  {}

  lemma ShapedAfterRemoved(r: Record, rest: seq<Record>, at: nat, p: Plan, height: U64, energy: U64)
    requires Shaped(rest, at + 1, p, height) && CanUnlock(r, height)
    ensures Shaped([r] + rest, at, Plan(p.remaining, energy, [at] + p.removed, p.edited), height)
  {}

  lemma ShapedPartial(rs: seq<Record>, at: nat, u: U64, height: U64, energy: U64)
    requires rs != [] && CanUnlock(rs[0], height) && 0 < u < rs[0].amount
    ensures Shaped(rs, at, Plan(0, energy, [], [(at, u)]), height)
  {}

  lemma ScanPartial(rs: seq<Record>, at: nat, remaining: U64, height: U64)
    requires rs != [] && CanUnlock(rs[0], height) && 0 < remaining < rs[0].amount
    ensures Scan(rs, at, remaining, height) ==
            Plan(0, Wrap(EnergyFor(remaining, rs[0].days) + 0), [], [(at, remaining)])
  {
    ScanNothing(rs[1..], at + 1, height);
  }

  lemma {:induction false} ScanShape(rs: seq<Record>, at: nat, remaining: U64, height: U64)
    ensures Shaped(rs, at, Scan(rs, at, remaining, height), height)
    decreases |rs|
  {
    if rs != [] {
      var rest := rs[1..];
      var whole := Scan(rs, at, remaining, height);
      assert rs == [rs[0]] + rest;
      if !CanUnlock(rs[0], height) {
        ScanShape(rest, at + 1, remaining, height);
        ShapedAfterKept(rs[0], rest, at, whole, height);
      } else if remaining != 0 && rs[0].amount <= remaining {
        var p := Scan(rest, at + 1, remaining - rs[0].amount, height);
        ScanShape(rest, at + 1, remaining - rs[0].amount, height);
        ShapedAfterRemoved(rs[0], rest, at, p, height, whole.energy);
      } else if remaining != 0 {
        ScanPartial(rs, at, remaining, height);
        ShapedPartial(rs, at, remaining, height, whole.energy);
      }
    }
  }

  /** The loop ends with exactly what the unlocked records could not cover. */
  lemma {:induction false} ScanRemaining(rs: seq<Record>, at: nat, remaining: U64, height: U64)
    ensures
      var have := Unlockable(rs, height);
      Scan(rs, at, remaining, height).remaining == if remaining <= have then 0 else remaining - have
    decreases |rs|
  {
    if rs != [] {
      var u := if remaining < rs[0].amount then remaining else rs[0].amount;
      ScanRemaining(rs[1..], at + 1, if CanUnlock(rs[0], height) then remaining - u else remaining, height);
    }
  }

  // -------------------------------------------------- the intended, one-pass effect

  /** Spend oldest unlocked first, in one pass. */
  function Spend(rs: seq<Record>, remaining: U64, height: U64): seq<Record> {
    if rs == [] || remaining == 0 then rs
    else if !CanUnlock(rs[0], height) then [rs[0]] + Spend(rs[1..], remaining, height)
    else if rs[0].amount <= remaining then Spend(rs[1..], remaining - rs[0].amount, height)
    else [Reduce(rs[0], remaining)] + rs[1..]
  }

  /** The records whose index is not listed. */
  ghost function Without(rs: seq<Record>, at: nat, indices: seq<nat>): seq<Record> {
    if rs == [] then []
    else if at in indices then Without(rs[1..], at + 1, indices)
    else [rs[0]] + Without(rs[1..], at + 1, indices)
  }

  lemma {:induction false} WithoutAgrees(rs: seq<Record>, at: nat, xs: seq<nat>, ys: seq<nat>)
    requires forall i: nat :: at <= i < at + |rs| ==> (i in xs <==> i in ys)
    ensures Without(rs, at, xs) == Without(rs, at, ys)
    decreases |rs|
  {
    if rs != [] { WithoutAgrees(rs[1..], at + 1, xs, ys); }
  }

  lemma {:induction false} WithoutNone(rs: seq<Record>, at: nat, xs: seq<nat>)
    requires forall i: nat :: at <= i < at + |rs| ==> i !in xs
    ensures Without(rs, at, xs) == rs
    decreases |rs|
  {
    if rs != [] { WithoutNone(rs[1..], at + 1, xs); }
  }

  lemma {:induction false} WithoutConcat(rs: seq<Record>, ss: seq<Record>, at: nat, xs: seq<nat>)
    ensures Without(rs + ss, at, xs) == Without(rs, at, xs) + Without(ss, at + |rs|, xs)
    decreases |rs|
  {
    if rs == [] {
      assert rs + ss == ss;
    } else {
      assert (rs + ss)[1..] == rs[1..] + ss;
      WithoutConcat(rs[1..], ss, at + 1, xs);
    }
  }

  lemma WithoutHead(r: Record, rest: seq<Record>, at: nat, xs: seq<nat>)
    requires at in xs
    ensures Without([r] + rest, at, xs) == Without(rest, at + 1, xs)
  {
    assert ([r] + rest)[1..] == rest;
  }

  /** Dropping the last listed record first does not disturb the others. */
  lemma WithoutLast(before: seq<Record>, r: Record, after: seq<Record>, front: seq<nat>, indices: seq<nat>)
    requires forall i :: i in front ==> i < |before|
    requires |before| in indices && forall i :: i != |before| ==> (i in indices <==> i in front)
    ensures Without(before + ([r] + after), 0, indices) == Without(before + after, 0, front)
  {
    var n := |before|;
    WithoutConcat(before, after, 0, front);
    WithoutConcat(before, [r] + after, 0, indices);
    WithoutAgrees(before, 0, indices, front);
    WithoutNone(after, n, front);
    WithoutHead(r, after, n, indices);
    WithoutNone(after, n + 1, indices);
  }

  lemma {:induction false} KeptOk(rs: seq<Record>, at: nat, xs: seq<nat>)
    requires AllOk(rs)
    ensures AllOk(Without(rs, at, xs))
    decreases |rs|
  {
    if rs != [] { KeptOk(rs[1..], at + 1, xs); }
  }

  /** Removing from the back by index removes exactly the listed records. */
  lemma {:induction false} RemoveAllIsWithout(rs: seq<Record>, indices: seq<nat>)
    requires Ascending(indices, |rs|)
    ensures RemoveAll(rs, indices) == Without(rs, 0, indices)
    decreases |indices|
  {
    if indices == [] {
      WithoutNone(rs, 0, []);
    } else {
      var n := |indices| - 1;
      var i, front := indices[n], indices[..n];
      RemoveAllIsWithout(rs[..i] + rs[i + 1..], front);
      assert indices == front + [i];
      WithoutLast(rs[..i], rs[i], rs[i + 1..], front, indices);
      assert rs == rs[..i] + ([rs[i]] + rs[i + 1..]);
    }
  }

  ghost predicate Agrees(rs: seq<Record>, at: nat, p: Plan, spent: seq<Record>) {
    var w := Without(rs, at, p.removed);
    && |w| == |rs| - |p.removed|
    && (p.edited == [] ==> spent == w)
    && (p.edited != [] ==>
          var (q, u) := p.edited[0];
          var k := q - at - |p.removed|;
          && 0 <= k < |w| && q - at < |rs|
          && w[k..] == rs[q - at..]
          && spent == w[k := Reduce(w[k], u)])
  }

  lemma AgreesAfterKept(r: Record, rest: seq<Record>, at: nat, p: Plan, spent: seq<Record>)
    requires Agrees(rest, at + 1, p, spent) && at !in p.removed
    ensures Agrees([r] + rest, at, p, [r] + spent)
  {
    assert ([r] + rest)[1..] == rest;
    var w' := Without(rest, at + 1, p.removed);
    var w := Without([r] + rest, at, p.removed);
    assert w == [r] + w';
    if p.edited != [] {
      var (q, u) := p.edited[0];
      var k := q - at - |p.removed|;
      assert w[k..] == w'[k - 1..];
      assert ([r] + rest)[q - at..] == rest[q - at - 1..];
    }
  }

  lemma AgreesAfterRemoved(r: Record, rest: seq<Record>, at: nat, p: Plan, spent: seq<Record>, energy: U64)
    requires Agrees(rest, at + 1, p, spent)
    ensures Agrees([r] + rest, at, Plan(p.remaining, energy, [at] + p.removed, p.edited), spent)
  {
    WithoutFirst(r, rest, at, p.removed);
    if p.edited != [] {
      DropFirst(r, rest, p.edited[0].0 - at);
    }
  }

  lemma WithoutFirst(r: Record, rest: seq<Record>, at: nat, xs: seq<nat>)
    ensures Without([r] + rest, at, [at] + xs) == Without(rest, at + 1, xs)
  {
    WithoutHead(r, rest, at, [at] + xs);
    WithoutAgrees(rest, at + 1, [at] + xs, xs);
  }

  lemma DropFirst(r: Record, rest: seq<Record>, n: nat)
    requires 1 <= n <= |rest|
    ensures ([r] + rest)[n..] == rest[n - 1..]
  {}

  lemma AgreesPartial(rs: seq<Record>, at: nat, u: U64, energy: U64)
    requires rs != []
    ensures Agrees(rs, at, Plan(0, energy, [], [(at, u)]), [Reduce(rs[0], u)] + rs[1..])
  {
    WithoutNone(rs, at, []);
    assert rs[0..] == rs;
    assert rs[0 := Reduce(rs[0], u)] == [Reduce(rs[0], u)] + rs[1..];
  }

  /** The plan and the one-pass effect describe the same spending. */
  lemma {:induction false} SpendFollowsPlan(rs: seq<Record>, at: nat, remaining: U64, height: U64)
    ensures Agrees(rs, at, Scan(rs, at, remaining, height), Spend(rs, remaining, height))
    decreases |rs|
  {
    if rs != [] {
      var rest := rs[1..];
      assert rs == [rs[0]] + rest;
      if !CanUnlock(rs[0], height) {
        SpendFollowsPlan(rest, at + 1, remaining, height);
        ScanShape(rest, at + 1, remaining, height);
        AgreesAfterKept(rs[0], rest, at, Scan(rest, at + 1, remaining, height), Spend(rest, remaining, height));
      } else if remaining == 0 {
        WithoutNone(rs, at, []);
      } else if rs[0].amount <= remaining {
        var r := remaining - rs[0].amount;
        var p := Scan(rest, at + 1, r, height);
        SpendFollowsPlan(rest, at + 1, r, height);
        AgreesAfterRemoved(rs[0], rest, at, p, Spend(rest, r, height), Scan(rs, at, remaining, height).energy);
      } else {
        ScanPartial(rs, at, remaining, height);
        AgreesPartial(rs, at, remaining, Scan(rs, at, remaining, height).energy);
      }
    }
  }

  /** The request was planned successfully. */
  ghost predicate Planned(l: Ledger, amount: U64, height: U64) {
    0 < Whole(amount) <= l.frozenTos && Scan(l.records, 0, Whole(amount), height).remaining == 0
  }

  /** The program's two passes, in terms of the records that survive the first one. */
  lemma TwoPasses(l: Ledger, amount: U64, height: U64)
    requires Planned(l, amount, height)
    ensures
      var p := Scan(l.records, 0, Whole(amount), height);
      var w := Without(l.records, 0, p.removed);
      var (r, l') := Unfreeze(l, amount, height);
      && (p.edited == [] ==> r == Energy(p.energy) && l'.records == w)
      && (p.edited != [] ==>
            var (q, u) := p.edited[0];
            if q < |w| then r == Energy(p.energy) && l'.records == w[q := Reduce(w[q], u)] else r == IndexPanic)
  {
    var p := Scan(l.records, 0, Whole(amount), height);
    var w := Without(l.records, 0, p.removed);
    ScanShape(l.records, 0, Whole(amount), height);
    RemoveAllIsWithout(l.records, p.removed);
    if p.edited != [] {
      assert p.edited == [p.edited[0]];
      EditOne(w, p.edited[0].0, p.edited[0].1);
    }
  }

  lemma EditOne(rs: seq<Record>, q: nat, u: U64)
    ensures EditAll(rs, [(q, u)]) == if q < |rs| then Some(rs[q := Reduce(rs[q], u)]) else None
  {
    assert [(q, u)][..0] == [];
    if q < |rs| {
      assert EditAll(rs[q := Reduce(rs[q], u)], []) == Some(rs[q := Reduce(rs[q], u)]);
    }
  }

  lemma ReduceChanges(r: Record, u: U64)
    requires 0 < u
    ensures Reduce(r, u) != r
  {}

  /**
   * In a call that removes `k > 0` records and edits the one at `q`, the edit lands on the record
   * `k` places further on; the call panics exactly when there is none. Either way it misses the intended effect.
   */
  lemma MisplacedEdit(l: Ledger, amount: U64, height: U64)
    requires Planned(l, amount, height)
    requires Scan(l.records, 0, Whole(amount), height).removed != []
    requires Scan(l.records, 0, Whole(amount), height).edited != []
    ensures
      var p := Scan(l.records, 0, Whole(amount), height);
      var (q, u) := p.edited[0];
      var k := |p.removed|;
      var w := Without(l.records, 0, p.removed);
      var (r, l') := Unfreeze(l, amount, height);
      && |w| == |l.records| - k
      && (r.IndexPanic? <==> q + k >= |l.records|)
      && (!r.IndexPanic? ==> r == Energy(p.energy) && w[q] == l.records[q + k] && l'.records == w[q := Reduce(l.records[q + k], u)])
      && (r.Energy? ==> l'.records != Spend(l.records, Whole(amount), height))
  {
    var rs, whole := l.records, Whole(amount);
    var p := Scan(rs, 0, whole, height);
    var (q, u) := p.edited[0];
    var k := |p.removed|;
    var w := Without(rs, 0, p.removed);
    TwoPasses(l, amount, height);
    ScanShape(rs, 0, whole, height);
    SpendFollowsPlan(rs, 0, whole, height);
    if q < |w| {
      assert w[q] == w[q - k..][k] && rs[q..][k] == rs[q + k];
      ReduceChanges(w[q - k], u);
      var code, spec := w[q := Reduce(w[q], u)], w[q - k := Reduce(w[q - k], u)];
      assert code[q - k] == w[q - k] && spec[q - k] != w[q - k];
    }
  }

  // --------------------------------- when the program does what is intended

  /** The request ends exactly at a record boundary, or inside the first unlocked record. */
  ghost predicate Clean(rs: seq<Record>, amount: nat, height: U64) {
    AtBoundary(rs, amount, height) || InsideFirst(rs, amount, height)
  }

  ghost predicate AtBoundary(rs: seq<Record>, amount: nat, height: U64) {
    exists j :: 0 <= j <= |rs| && Unlockable(rs[..j], height) == amount
  }

  predicate InsideFirst(rs: seq<Record>, amount: nat, height: U64) {
    rs != [] && if CanUnlock(rs[0], height) then amount < rs[0].amount else InsideFirst(rs[1..], amount, height)
  }

  lemma BoundaryShift(rs: seq<Record>, amount: nat, height: U64)
    requires rs != [] && amount > 0
    ensures
      var own := if CanUnlock(rs[0], height) then rs[0].amount else 0;
      AtBoundary(rs, amount, height) <==> own <= amount && AtBoundary(rs[1..], amount - own, height)
  {
    var own := if CanUnlock(rs[0], height) then rs[0].amount else 0;
    forall j | 0 < j <= |rs|
      ensures Unlockable(rs[..j], height) == own + Unlockable(rs[1..][..j - 1], height)
    {
      assert rs[..j][1..] == rs[1..][..j - 1];
    }
    if own <= amount && AtBoundary(rs[1..], amount - own, height) {
      var j :| 0 <= j <= |rs[1..]| && Unlockable(rs[1..][..j], height) == amount - own;
      assert Unlockable(rs[..j + 1], height) == amount;
    }
  }

  lemma BoundaryZero(rs: seq<Record>, height: U64)
    ensures AtBoundary(rs, 0, height)
  {
    assert Unlockable(rs[..0], height) == 0;
  }

  /** A plan edits nothing, or removes nothing, exactly for clean requests. */
  lemma {:induction false} PlanIsClean(rs: seq<Record>, at: nat, amount: U64, height: U64)
    requires 0 < amount <= Unlockable(rs, height)
    ensures Scan(rs, at, amount, height).edited == [] <==> AtBoundary(rs, amount, height)
    ensures Scan(rs, at, amount, height).removed == [] <==> InsideFirst(rs, amount, height)
    decreases |rs|
  {
    var rest := rs[1..];
    BoundaryShift(rs, amount, height);
    if !CanUnlock(rs[0], height) {
      PlanIsClean(rest, at + 1, amount, height);
    } else if rs[0].amount < amount {
      PlanIsClean(rest, at + 1, amount - rs[0].amount, height);
    } else {
      ScanNothing(rest, at + 1, height);
      BoundaryZero(rest, height);
    }
  }

  /** The two passes have the intended one-pass effect if and only if the request is clean. */
  lemma MatchesExactlyWhenClean(l: Ledger, amount: U64, height: U64)
    requires Planned(l, amount, height)
    ensures
      var (r, l') := Unfreeze(l, amount, height);
      r.Energy? && l'.records == Spend(l.records, Whole(amount), height) <==> Clean(l.records, Whole(amount), height)
  {
    var rs, whole := l.records, Whole(amount);
    var p := Scan(rs, 0, whole, height);
    ScanRemaining(rs, 0, whole, height);
    PlanIsClean(rs, 0, whole, height);
    if p.removed != [] && p.edited != [] {
      MisplacedEdit(l, amount, height);
    } else {
      TwoPasses(l, amount, height);
      ScanShape(rs, 0, whole, height);
      SpendFollowsPlan(rs, 0, whole, height);
    }
  }

  // --------------------------------------------------- the ledger invariant

  predicate RecordOk(r: Record) {
    r.amount % COIN == 0 && 3 <= r.days <= 90 && r.energy == r.amount / COIN * 2 * r.days
  }

  predicate AllOk(rs: seq<Record>) {
    forall i :: 0 <= i < |rs| ==> RecordOk(rs[i])
  }

  /** Cached totals are the sums, every record holds whole coins and the energy they earn. */
  predicate Sound(l: Ledger) {
    AllOk(l.records) && l.frozenTos == SumAmounts(l.records) && l.totalEnergy == SumEnergy(l.records)
  }

  lemma EnergyExact(amount: U64, days: U32)
    requires days <= 90
    ensures EnergyFor(amount, days) == amount / COIN * 2 * days
  {
    var coins := amount / COIN;
    assert Multiplier(days) == 2 * days;
    ProductFits(coins, 2 * days);
    WrapSmall(coins * (2 * days));
    assert coins * (2 * days) == coins * 2 * days;
  }

  lemma ProductFits(a: int, b: int)
    requires 0 <= a <= 184467440737 && 0 <= b <= 180
    ensures 0 <= a * b < TWO_64
  {
    assert a * b <= a * 180;
  }

  lemma CoinsSplit(a: int, u: int)
    requires a % COIN == 0 && u % COIN == 0
    ensures (a - u) % COIN == 0 && (a - u) / COIN == a / COIN - u / COIN
  {}

  lemma Distribute(a: int, u: int, days: int)
    ensures (a - u) * 2 * days == a * 2 * days - u * 2 * days
  {}

  lemma {:induction false} FullEnergy(r: Record)
    requires RecordOk(r)
    ensures EnergyFor(r.amount, r.days) == r.energy
  {
    EnergyExact(r.amount, r.days);
  }

  lemma WrapSmall(x: int)
    requires 0 <= x < TWO_64
    ensures Wrap(x) == x
  {}

  lemma {:induction false} ReduceOk(r: Record, u: U64)
    requires RecordOk(r) && u % COIN == 0 && u <= r.amount
    ensures RecordOk(Reduce(r, u))
    ensures Reduce(r, u).amount + u == r.amount
    ensures Reduce(r, u).energy + EnergyFor(u, r.days) == r.energy
  {
    var rest: U64 := r.amount - u;
    WrapSmall(rest);
    var reduced := Reduce(r, u);
    assert reduced.amount == rest && reduced.days == r.days;
    assert reduced.energy == EnergyFor(rest, r.days);
    EnergyExact(rest, r.days);
    EnergyExact(u, r.days);
    CoinsSplit(r.amount, u);
    Distribute(r.amount / COIN, u / COIN, r.days);
  }

  lemma {:induction false} ScanRemoved(rs: seq<Record>, at: nat, amount: U64, height: U64)
    requires rs != [] && CanUnlock(rs[0], height) && 0 < amount && rs[0].amount <= amount && RecordOk(rs[0])
    ensures Scan(rs, at, amount, height).energy ==
            Wrap(rs[0].energy + Scan(rs[1..], at + 1, amount - rs[0].amount, height).energy)
    ensures Spend(rs, amount, height) == Spend(rs[1..], amount - rs[0].amount, height)
  {
    FullEnergy(rs[0]);
  }

  lemma {:induction false} SpendPartial(rs: seq<Record>, at: nat, amount: U64, height: U64)
    requires rs != [] && CanUnlock(rs[0], height) && 0 < amount < rs[0].amount
    requires RecordOk(rs[0]) && amount % COIN == 0 && rs[0].energy < TWO_64
    ensures
      var r := Reduce(rs[0], amount);
      && Spend(rs, amount, height) == [r] + rs[1..] && RecordOk(r) && r.amount + amount == rs[0].amount
      && r.energy + Scan(rs, at, amount, height).energy == rs[0].energy
  {
    ScanPartial(rs, at, amount, height);
    ReduceOk(rs[0], amount);
    WrapSmall(EnergyFor(amount, rs[0].days));
  }

  lemma SumCons(r: Record, rs: seq<Record>)
    ensures SumAmounts([r] + rs) == r.amount + SumAmounts(rs)
    ensures SumEnergy([r] + rs) == r.energy + SumEnergy(rs)
    ensures RecordOk(r) && AllOk(rs) ==> AllOk([r] + rs)
  {
    assert ([r] + rs)[1..] == rs;
  }

  ghost predicate Totals(rs: seq<Record>, spent: seq<Record>, amount: nat, energy: nat) {
    AllOk(spent) && SumAmounts(spent) + amount == SumAmounts(rs) && SumEnergy(spent) + energy == SumEnergy(rs)
  }

  /** The one-pass effect takes exactly the request out of the coins and its energy out of the energy. */
  lemma {:induction false} SpendTotals(rs: seq<Record>, at: nat, amount: U64, height: U64)
    requires AllOk(rs) && amount % COIN == 0 && amount <= Unlockable(rs, height)
    requires SumEnergy(rs) < TWO_64
    ensures Totals(rs, Spend(rs, amount, height), amount, Scan(rs, at, amount, height).energy)
    decreases |rs|
  {
    if rs != [] {
      var rest := rs[1..];
      SumCons(rs[0], rest);
      assert rs == [rs[0]] + rest;
      if amount == 0 {
        ScanNothing(rs, at, height);
      } else if !CanUnlock(rs[0], height) {
        SpendTotals(rest, at + 1, amount, height);
        SumCons(rs[0], Spend(rest, amount, height));
      } else if rs[0].amount <= amount {
        CoinsSplit(amount, rs[0].amount);
        SpendTotals(rest, at + 1, amount - rs[0].amount, height);
        ScanRemoved(rs, at, amount, height);
        WrapSmall(rs[0].energy + Scan(rest, at + 1, amount - rs[0].amount, height).energy);
      } else {
        SpendPartial(rs, at, amount, height);
        SumCons(Reduce(rs[0], amount), rest);
      }
    }
  }

  /** Unfreezing goes ahead exactly for a positive whole amount that is unlocked; every refusal changes nothing. */
  lemma AcceptedExactly(l: Ledger, amount: U64, height: U64)
    requires Sound(l)
    ensures
      var (r, l') := Unfreeze(l, amount, height);
      && (r.Energy? || r.IndexPanic? <==> 0 < Whole(amount) <= Unlockable(l.records, height))
      && (!(r.Energy? || r.IndexPanic?) ==> l' == l)
  {
    UnlockableBounded(l.records, height);
    ScanRemaining(l.records, 0, Whole(amount), height);
  }

  lemma PlannedExactly(l: Ledger, amount: U64, height: U64)
    requires Sound(l) && 0 < Whole(amount) <= Unlockable(l.records, height)
    ensures Planned(l, amount, height)
  {
    UnlockableBounded(l.records, height);
    ScanRemaining(l.records, 0, Whole(amount), height);
  }

  lemma TotalFields(l: Ledger, amount: U64, height: U64)
    requires Sound(l) && Planned(l, amount, height) && Unfreeze(l, amount, height).0.Energy?
    ensures Unfreeze(l, amount, height).1.frozenTos == l.frozenTos - Whole(amount)
    ensures Unfreeze(l, amount, height).1.totalEnergy ==
            l.totalEnergy - Scan(l.records, 0, Whole(amount), height).energy
  {
    ScanRemaining(l.records, 0, Whole(amount), height);
    SpentTotals(l, amount, height);
  }

  lemma SoundAfter(l: Ledger, l': Ledger, amount: nat, energy: nat)
    requires Sound(l) && Totals(l.records, l'.records, amount, energy)
    requires l'.frozenTos == l.frozenTos - amount && l'.totalEnergy == l.totalEnergy - energy
    ensures Sound(l')
  {}

  lemma CleanUnfreezeIsSound(l: Ledger, amount: U64, height: U64)
    requires Sound(l) && 0 < Whole(amount) <= Unlockable(l.records, height)
    requires Clean(l.records, Whole(amount), height)
    ensures Unfreeze(l, amount, height).0.Energy? && Sound(Unfreeze(l, amount, height).1)
    ensures Unfreeze(l, amount, height).1.records == Spend(l.records, Whole(amount), height)
  {
    PlannedExactly(l, amount, height);
    MatchesExactlyWhenClean(l, amount, height);
    TotalFields(l, amount, height);
    SpentTotals(l, amount, height);
    SoundAfter(l, Unfreeze(l, amount, height).1, Whole(amount), Scan(l.records, 0, Whole(amount), height).energy);
  }

  lemma SpentTotals(l: Ledger, amount: U64, height: U64)
    requires Sound(l) && Whole(amount) <= Unlockable(l.records, height)
    ensures Totals(l.records, Spend(l.records, Whole(amount), height), Whole(amount),
                   Scan(l.records, 0, Whole(amount), height).energy)
  {
    WholeIsWhole(amount);
    SpendTotals(l.records, 0, Whole(amount), height);
  }

  // ------------------------------------------- what an unclean request breaks

  lemma {:induction false} SumAfterUpdate(rs: seq<Record>, i: nat, r: Record)
    requires i < |rs|
    ensures SumAmounts(rs[i := r]) == SumAmounts(rs) - rs[i].amount + r.amount
    ensures SumEnergy(rs[i := r]) == SumEnergy(rs) - rs[i].energy + r.energy
    decreases |rs|
  {
    if i == 0 {
      assert rs[0 := r][1..] == rs[1..];
    } else {
      assert rs[i := r][1..] == rs[1..][i - 1 := r];
      SumAfterUpdate(rs[1..], i - 1, r);
    }
  }

  /**
   * When the edit is misplaced but the call survives, the cached coin total stays right exactly if
   * the wrong record holds enough coins, and the cached energy total stays right exactly if, on top
   * of that, it was frozen for as many days as the intended one.
   */
  lemma UncleanTotals(l: Ledger, amount: U64, height: U64)
    requires Sound(l) && Planned(l, amount, height)
    requires Scan(l.records, 0, Whole(amount), height).removed != []
    requires Scan(l.records, 0, Whole(amount), height).edited != []
    requires Unfreeze(l, amount, height).0.Energy?
    ensures
      var p := Scan(l.records, 0, Whole(amount), height);
      var (q, u) := p.edited[0];
      var l' := Unfreeze(l, amount, height).1;
      && q + |p.removed| < |l.records|
      && var wrong, right := l.records[q + |p.removed|], l.records[q];
      && (l'.frozenTos == SumAmounts(l'.records) <==> u <= wrong.amount)
      && (u <= wrong.amount ==> (l'.totalEnergy == SumEnergy(l'.records) <==> wrong.days == right.days))
  {
    var p := Scan(l.records, 0, Whole(amount), height);
    var (q, u) := p.edited[0];
    ScanRemaining(l.records, 0, Whole(amount), height);
    var w, i := IntendedEdit(l.records, Whole(amount), height);
    MisplacedEdit(l, amount, height);
    TotalFields(l, amount, height);
    EditedCoins(w, i, q, u);
    if u <= w[q].amount {
      EditedEnergy(w, i, q, u);
    }
  }

  /** A misplaced edit leaves the ledger sound if and only if the wrong record could pay and was frozen as long. */
  lemma UncleanSoundExactly(l: Ledger, amount: U64, height: U64)
    requires Sound(l) && Planned(l, amount, height)
    requires Scan(l.records, 0, Whole(amount), height).removed != []
    requires Scan(l.records, 0, Whole(amount), height).edited != []
    requires Unfreeze(l, amount, height).0.Energy?
    ensures
      var p := Scan(l.records, 0, Whole(amount), height);
      var (q, u) := p.edited[0];
      && q + |p.removed| < |l.records|
      && var wrong, right := l.records[q + |p.removed|], l.records[q];
      (Sound(Unfreeze(l, amount, height).1) <==> u <= wrong.amount && wrong.days == right.days)
  {
    var p := Scan(l.records, 0, Whole(amount), height);
    var (q, u) := p.edited[0];
    UncleanTotals(l, amount, height);
    if u <= l.records[q + |p.removed|].amount {
      MisplacedRecordsOk(l, amount, height);
    }
  }

  lemma MisplacedRecordsOk(l: Ledger, amount: U64, height: U64)
    requires Sound(l) && Planned(l, amount, height)
    requires Scan(l.records, 0, Whole(amount), height).removed != []
    requires Scan(l.records, 0, Whole(amount), height).edited != []
    requires Unfreeze(l, amount, height).0.Energy?
    requires
      var p := Scan(l.records, 0, Whole(amount), height);
      var (q, u) := p.edited[0];
      q + |p.removed| < |l.records| && u <= l.records[q + |p.removed|].amount
    ensures AllOk(Unfreeze(l, amount, height).1.records)
  {
    ScanRemaining(l.records, 0, Whole(amount), height);
    WholeIsWhole(amount);
    var w, i := IntendedEdit(l.records, Whole(amount), height);
    MisplacedEdit(l, amount, height);
    var (q, u) := Scan(l.records, 0, Whole(amount), height).edited[0];
    ReducedOk(w, q, u);
  }

  /** Rounding down to whole coins. */
  lemma WholeIsWhole(amount: U64)
    ensures Whole(amount) % COIN == 0 && Whole(amount) <= amount < Whole(amount) + COIN
  {}

  lemma {:induction false} ReducedOk(w: seq<Record>, q: nat, u: U64)
    requires AllOk(w) && q < |w| && u % COIN == 0 && u <= w[q].amount
    ensures AllOk(w[q := Reduce(w[q], u)])
  {
    ReduceOk(w[q], u);
  }

  /** The records both edits start from, and the position that was meant. */
  lemma {:induction false} IntendedEdit(rs: seq<Record>, amount: U64, height: U64) returns (w: seq<Record>, i: nat)
    requires AllOk(rs) && amount % COIN == 0 && amount <= Unlockable(rs, height) && SumEnergy(rs) < TWO_64
    requires Scan(rs, 0, amount, height).edited != []
    ensures
      var p := Scan(rs, 0, amount, height);
      var (q, u) := p.edited[0];
      && w == Without(rs, 0, p.removed) && AllOk(w)
      && i < |w| && q < |rs| && w[i] == rs[q]
      && u % COIN == 0 && u / COIN > 0 && u <= w[i].amount
      && Totals(rs, w[i := Reduce(w[i], u)], amount, p.energy)
  {
    var p := Scan(rs, 0, amount, height);
    var q := p.edited[0].0;
    SpendFollowsPlan(rs, 0, amount, height);
    w, i := Without(rs, 0, p.removed), q - |p.removed|;
    assert w[i] == w[i..][0] && rs[q] == rs[q..][0];
    ScanShape(rs, 0, amount, height);
    EditedIsWhole(rs, 0, amount, height);
    KeptOk(rs, 0, p.removed);
    SpendTotals(rs, 0, amount, height);
  }

  /** Editing `w[j]` where `w[i]` was meant: what the sum of coins becomes. */
  lemma {:induction false} EditedCoins(w: seq<Record>, i: nat, j: nat, u: U64)
    requires i < |w| && j < |w| && RecordOk(w[i]) && u % COIN == 0 && u <= w[i].amount
    ensures SumAmounts(w[j := Reduce(w[j], u)]) == SumAmounts(w[i := Reduce(w[i], u)]) <==> u <= w[j].amount
  {
    SumAfterUpdate(w, i, Reduce(w[i], u));
    SumAfterUpdate(w, j, Reduce(w[j], u));
    ReducedAmount(w[i], u);
    ReducedAmount(w[j], u);
  }

  lemma ReducedAmount(r: Record, u: U64)
    ensures Reduce(r, u).amount == if u <= r.amount then r.amount - u else r.amount - u + TWO_64
  {}

  /** Editing `w[j]` where `w[i]` was meant: what the sum of energy becomes. */
  lemma {:induction false} EditedEnergy(w: seq<Record>, i: nat, j: nat, u: U64)
    requires i < |w| && j < |w| && RecordOk(w[i]) && RecordOk(w[j])
    requires u % COIN == 0 && u / COIN > 0 && u <= w[i].amount && u <= w[j].amount
    ensures SumEnergy(w[j := Reduce(w[j], u)]) == SumEnergy(w[i := Reduce(w[i], u)]) <==> w[j].days == w[i].days
  {
    SumAfterUpdate(w, i, Reduce(w[i], u));
    SumAfterUpdate(w, j, Reduce(w[j], u));
    ReduceOk(w[i], u);
    ReduceOk(w[j], u);
    EnergyTellsDays(u, w[i].days, w[j].days);
  }

  lemma {:induction false} EnergyTellsDays(u: U64, d: U32, e: U32)
    requires u / COIN > 0 && d <= 90 && e <= 90
    ensures EnergyFor(u, d) == EnergyFor(u, e) <==> d == e
  {
    EnergyExact(u, d);
    EnergyExact(u, e);
    SameDays(u / COIN, d, e);
  }

  lemma SameDays(coins: int, d: int, e: int)
    requires coins > 0
    ensures coins * 2 * d == coins * 2 * e <==> d == e
  {
    if d != e {
      assert coins * 2 * (d - e) != 0;
    }
  }

  lemma {:induction false} EditedIsWhole(rs: seq<Record>, at: nat, amount: U64, height: U64)
    requires AllOk(rs) && amount % COIN == 0
    ensures
      var edited := Scan(rs, at, amount, height).edited;
      edited != [] ==> edited[0].1 % COIN == 0 && edited[0].1 / COIN > 0
    decreases |rs|
  {
    if rs != [] && amount != 0 {
      if !CanUnlock(rs[0], height) {
        EditedIsWhole(rs[1..], at + 1, amount, height);
      } else if rs[0].amount <= amount {
        CoinsSplit(amount, rs[0].amount);
        EditedIsWhole(rs[1..], at + 1, amount - rs[0].amount, height);
      } else {
        ScanPartial(rs, at, amount, height);
      }
    } else if rs != [] {
      ScanNothing(rs, at, height);
    }
  }

  // ------------------------------------------------------- every unfreeze

  lemma EmptyEarnsNothing(r: Record)
    requires RecordOk(r) && r.amount == 0
    ensures r.energy == 0
  {}

  /** The listed records hold no coins. */
  ghost predicate EmptyAt(rs: seq<Record>, at: nat, xs: seq<nat>) {
    forall i :: 0 <= i < |rs| && at + i in xs ==> rs[i].amount == 0
  }

  lemma EmptyRest(rs: seq<Record>, at: nat, xs: seq<nat>)
    requires rs != []
    ensures EmptyAt(rs, at, xs) <==> (at in xs ==> rs[0].amount == 0) && EmptyAt(rs[1..], at + 1, xs)
  {
    if EmptyAt(rs, at, xs) {
      assert at + 0 in xs ==> rs[0].amount == 0;
      forall i | 0 <= i < |rs| - 1 && at + 1 + i in xs ensures rs[1..][i].amount == 0 {
        assert at + (i + 1) in xs;
      }
    }
    if (at in xs ==> rs[0].amount == 0) && EmptyAt(rs[1..], at + 1, xs) {
      forall i | 0 <= i < |rs| && at + i in xs ensures rs[i].amount == 0 {
        if i > 0 {
          assert at + 1 + (i - 1) in xs;
        }
      }
    }
  }

  /** Dropping records keeps the sums exactly when the dropped ones are empty. */
  lemma {:induction false} DroppedSums(rs: seq<Record>, at: nat, xs: seq<nat>)
    requires AllOk(rs)
    ensures SumAmounts(Without(rs, at, xs)) <= SumAmounts(rs)
    ensures SumAmounts(Without(rs, at, xs)) == SumAmounts(rs) <==> EmptyAt(rs, at, xs)
    ensures EmptyAt(rs, at, xs) ==> SumEnergy(Without(rs, at, xs)) == SumEnergy(rs)
    decreases |rs|
  {
    if rs != [] {
      DroppedSums(rs[1..], at + 1, xs);
      EmptyRest(rs, at, xs);
      if at !in xs {
        SumCons(rs[0], Without(rs[1..], at + 1, xs));
      } else if rs[0].amount == 0 {
        EmptyEarnsNothing(rs[0]);
      }
    }
  }

  /** What a panic leaves: the marked records are gone and the totals are as before. */
  lemma PanicLeaves(l: Ledger, amount: U64, height: U64)
    requires Planned(l, amount, height)
    ensures
      var p := Scan(l.records, 0, Whole(amount), height);
      var (r, l') := Unfreeze(l, amount, height);
      r.IndexPanic? ==> l' == l.(records := Without(l.records, 0, p.removed))
  {
    ScanShape(l.records, 0, Whole(amount), height);
    RemoveAllIsWithout(l.records, Scan(l.records, 0, Whole(amount), height).removed);
  }

  /** An unclean request does no harm to a record list of which the wrong record can stand in for the right one. */
  ghost predicate Forgiven(rs: seq<Record>, p: Plan) {
    p.edited != [] &&
    var (q, u) := p.edited[0];
    var k := q + |p.removed|;
    q < |rs| && if k < |rs| then u <= rs[k].amount && rs[k].days == rs[q].days else EmptyAt(rs, 0, p.removed)
  }

  /** Refused, clean, or by luck without effect on the totals. */
  ghost predicate Harmless(rs: seq<Record>, whole: U64, height: U64) {
    whole == 0 || whole > Unlockable(rs, height) || Clean(rs, whole, height) || Forgiven(rs, Scan(rs, 0, whole, height))
  }

  lemma MisplacedSoundExactly(l: Ledger, amount: U64, height: U64)
    requires Sound(l) && Planned(l, amount, height)
    requires Scan(l.records, 0, Whole(amount), height).removed != []
    requires Scan(l.records, 0, Whole(amount), height).edited != []
    ensures Sound(Unfreeze(l, amount, height).1) <==> Forgiven(l.records, Scan(l.records, 0, Whole(amount), height))
  {
    var p := Scan(l.records, 0, Whole(amount), height);
    ScanShape(l.records, 0, Whole(amount), height);
    MisplacedEdit(l, amount, height);
    if Unfreeze(l, amount, height).0.Energy? {
      UncleanSoundExactly(l, amount, height);
    } else {
      PanicLeaves(l, amount, height);
      DroppedSums(l.records, 0, p.removed);
      KeptOk(l.records, 0, p.removed);
    }
  }

  /**
   * On a sound ledger every unfreeze, whatever its outcome, leaves the ledger sound if and only
   * if the request is refused, clean, or forgiven.
   */
  lemma UnfreezeSoundExactly(l: Ledger, amount: U64, height: U64)
    requires Sound(l)
    ensures Sound(Unfreeze(l, amount, height).1) <==> Harmless(l.records, Whole(amount), height)
  {
    AcceptedExactly(l, amount, height);
    if 0 < Whole(amount) <= Unlockable(l.records, height) {
      PlannedExactly(l, amount, height);
      if Clean(l.records, Whole(amount), height) {
        CleanUnfreezeIsSound(l, amount, height);
      } else {
        PlanIsClean(l.records, 0, Whole(amount), height);
        MisplacedSoundExactly(l, amount, height);
      }
    }
  }

  // ------------------------------------------------------------ whole runs

  datatype Op =
    | FreezeOp(amount: U64, days: U32, height: U64)
    | ConsumeOp(energy: U64)
    | ResetOp(height: U64)
    | UnfreezeOp(amount: U64, height: U64)

  function Apply(l: Ledger, op: Op): Ledger {
    match op
    case FreezeOp(amount, days, height) => Freeze(l, amount, days, height)
    case ConsumeOp(energy) =>
      if Available(l) < energy then l else l.(usedEnergy := Wrap(l.usedEnergy + energy))
    case ResetOp(height) => l.(usedEnergy := 0, lastUpdate := height)
    case UnfreezeOp(amount, height) => Unfreeze(l, amount, height).1
  }

  /** Freezes within the accepted durations and `u64`, and unfreezes that do no harm. */
  ghost predicate Admissible(l: Ledger, op: Op) {
    match op
    case FreezeOp(amount, days, height) =>
      var r := NewRecord(amount, days, height);
      3 <= days <= 90 && l.frozenTos + r.amount < TWO_64 && l.totalEnergy + r.energy < TWO_64
    case UnfreezeOp(amount, height) => Harmless(l.records, Whole(amount), height)
    case _ => true
  }

  function Run(l: Ledger, ops: seq<Op>): Ledger
    decreases |ops|
  {
    if ops == [] then l else Run(Apply(l, ops[0]), ops[1..])
  }

  ghost predicate RunAdmissible(l: Ledger, ops: seq<Op>)
    decreases |ops|
  {
    ops == [] || (Admissible(l, ops[0]) && RunAdmissible(Apply(l, ops[0]), ops[1..]))
  }

  lemma {:induction false} SumAppend(rs: seq<Record>, r: Record)
    ensures SumAmounts(rs + [r]) == SumAmounts(rs) + r.amount
    ensures SumEnergy(rs + [r]) == SumEnergy(rs) + r.energy
    decreases |rs|
  {
    if rs == [] {
      assert rs + [r] == [r] && [r][1..] == [];
    } else {
      assert (rs + [r])[1..] == rs[1..] + [r];
      SumAppend(rs[1..], r);
    }
  }

  /** A freeze keeps the ledger sound if and only if its duration is accepted and both totals still fit a `u64`. */
  lemma FreezeSoundExactly(l: Ledger, amount: U64, days: U32, height: U64)
    requires Sound(l)
    ensures Sound(Freeze(l, amount, days, height)) <==> Admissible(l, FreezeOp(amount, days, height))
  {
    var r := NewRecord(amount, days, height);
    SumAppend(l.records, r);
    assert (l.records + [r])[|l.records|] == r;
    if 3 <= days <= 90 {
      WholeOk(amount, days, height);
      OkAppend(l.records, r);
    }
    WrapFixed(l.frozenTos + r.amount);
    WrapFixed(l.totalEnergy + r.energy);
  }

  lemma {:induction false} UnlockableAppend(rs: seq<Record>, r: Record, height: U64)
    ensures Unlockable(rs + [r], height) == Unlockable(rs, height) + if CanUnlock(r, height) then r.amount else 0
    decreases |rs|
  {
    if rs == [] {
      assert rs + [r] == [r] && [r][1..] == [];
    } else {
      assert (rs + [r])[1..] == rs[1..] + [r];
      UnlockableAppend(rs[1..], r, height);
    }
  }

  /** Frozen coins, rounded down to whole ones, stay locked until the freeze height plus the duration, and no longer. */
  lemma FrozenUntil(l: Ledger, amount: U64, days: U32, height: U64, x: U64)
    requires height + days * 86400 < TWO_64
    ensures Unlockable(Freeze(l, amount, days, height).records, x) ==
            Unlockable(l.records, x) + if x >= height + days * 86400 then Whole(amount) else 0
  {
    UnlockableAppend(l.records, NewRecord(amount, days, height), x);
    WrapSmall(height + days * 86400);
  }

  /** Without an overflow of the unlock height nothing frozen can be taken back in the days that follow. */
  lemma NoEarlyUnfreeze(l: Ledger, amount: U64, days: U32, height: U64, x: U64, back: U64)
    requires Sound(l) && Admissible(l, FreezeOp(amount, days, height)) && height + days * 86400 < TWO_64
    requires x < height + days * 86400
    ensures var r := Unfreeze(Freeze(l, amount, days, height), back, x).0;
            r.Energy? || r.IndexPanic? <==> 0 < Whole(back) <= Unlockable(l.records, x)
  {
    FreezeSoundExactly(l, amount, days, height);
    AcceptedExactly(Freeze(l, amount, days, height), back, x);
    FrozenUntil(l, amount, days, height, x);
  }

  /** Every record unlocks its duration after it was frozen. */
  predicate TimesOk(rs: seq<Record>) {
    forall i :: 0 <= i < |rs| ==> rs[i].unlockAt == Wrap(rs[i].freezeAt + rs[i].days * 86400)
  }

  lemma {:induction false} RemoveKeepsTimes(rs: seq<Record>, indices: seq<nat>)
    requires Ascending(indices, |rs|) && TimesOk(rs)
    ensures TimesOk(RemoveAll(rs, indices))
    decreases |indices|
  {
    if indices != [] {
      var i := indices[|indices| - 1];
      RemoveKeepsTimes(rs[..i] + rs[i + 1..], indices[..|indices| - 1]);
    }
  }

  lemma {:induction false} EditKeepsTimes(rs: seq<Record>, edits: seq<(nat, U64)>)
    requires TimesOk(rs)
    ensures EditAll(rs, edits).Some? ==> TimesOk(EditAll(rs, edits).value)
    decreases |edits|
  {
    if edits != [] && edits[|edits| - 1].0 < |rs| {
      var (i, u) := edits[|edits| - 1];
      EditKeepsTimes(rs[i := Reduce(rs[i], u)], edits[..|edits| - 1]);
    }
  }

  lemma UnfreezeKeepsTimes(l: Ledger, amount: U64, height: U64)
    requires TimesOk(l.records)
    ensures TimesOk(Unfreeze(l, amount, height).1.records)
  {
    var p := Scan(l.records, 0, Whole(amount), height);
    if Ascending(p.removed, |l.records|) {
      RemoveKeepsTimes(l.records, p.removed);
    }
    EditKeepsTimes(Kept(l.records, p), p.edited);
  }

  /** No operation, not even a misplaced edit, moves the unlock height of a record away from its freeze height and duration. */
  lemma {:induction false} RunKeepsTimes(l: Ledger, ops: seq<Op>)
    requires TimesOk(l.records)
    ensures TimesOk(Run(l, ops).records)
    decreases |ops|
  {
    if ops != [] {
      if ops[0].UnfreezeOp? {
        UnfreezeKeepsTimes(l, ops[0].amount, ops[0].height);
      }
      RunKeepsTimes(Apply(l, ops[0]), ops[1..]);
    }
  }

  /** The height at which the ledger was last touched: by a freeze, a reset or an unfreeze that was not refused. */
  function Touched(l: Ledger, ops: seq<Op>): nat
    decreases |ops|
  {
    if ops == [] then l.lastUpdate
    else match ops[|ops| - 1]
      case FreezeOp(_, _, height) => height
      case ResetOp(height) => height
      case ConsumeOp(_) => Touched(l, ops[..|ops| - 1])
      case UnfreezeOp(amount, height) =>
        if Unfreeze(Run(l, ops[..|ops| - 1]), amount, height).0.Energy? then height else Touched(l, ops[..|ops| - 1])
  }

  lemma {:induction false} RunLast(l: Ledger, ops: seq<Op>)
    requires ops != []
    ensures Run(l, ops) == Apply(Run(l, ops[..|ops| - 1]), ops[|ops| - 1])
    decreases |ops|
  {
    if |ops| > 1 {
      RunLast(Apply(l, ops[0]), ops[1..]);
      assert ops[1..][..|ops| - 2] == ops[..|ops| - 1][1..];
    }
  }

  lemma {:induction false} LastUpdateIsTouched(l: Ledger, ops: seq<Op>)
    ensures Run(l, ops).lastUpdate == Touched(l, ops)
    decreases |ops|
  {
    if ops != [] {
      RunLast(l, ops);
      LastUpdateIsTouched(l, ops[..|ops| - 1]);
    }
  }

  /** Energy consumed since the last reset, as far as it was available. */
  function Consumed(l: Ledger, ops: seq<Op>): int
    decreases |ops|
  {
    if ops == [] then l.usedEnergy
    else
      var front := ops[..|ops| - 1];
      match ops[|ops| - 1]
      case ResetOp(_) => 0
      case ConsumeOp(e) => Consumed(l, front) + if e == 0 || Consumed(l, front) + e <= Run(l, front).totalEnergy then e else 0
      case _ => Consumed(l, front)
  }

  /** No run uses energy it does not have, and the used energy is what was consumed since the last reset. */
  lemma {:induction false} UsedIsConsumed(l: Ledger, ops: seq<Op>)
    ensures Run(l, ops).usedEnergy == Consumed(l, ops)
    decreases |ops|
  {
    if ops != [] {
      RunLast(l, ops);
      UsedIsConsumed(l, ops[..|ops| - 1]);
    }
  }

  lemma OkAppend(rs: seq<Record>, r: Record)
    requires AllOk(rs) && RecordOk(r)
    ensures AllOk(rs + [r])
  {}

  lemma WrapFixed(x: nat)
    ensures Wrap(x) == x <==> x < TWO_64
  {}

  lemma {:induction false} WholeOk(amount: U64, days: U32, height: U64)
    requires 3 <= days <= 90
    ensures RecordOk(NewRecord(amount, days, height))
  {
    EnergyExact(Whole(amount), days);
  }

  /** A step keeps the ledger sound if and only if it is admissible. */
  lemma StepSoundExactly(l: Ledger, op: Op)
    requires Sound(l)
    ensures Sound(Apply(l, op)) <==> Admissible(l, op)
  {
    match op
    case FreezeOp(amount, days, height) => FreezeSoundExactly(l, amount, days, height);
    case UnfreezeOp(amount, height) => UnfreezeSoundExactly(l, amount, height);
    case _ =>
  }

  /** Every ledger of the run is sound. */
  ghost predicate AlwaysSound(l: Ledger, ops: seq<Op>)
    decreases |ops|
  {
    Sound(l) && (ops == [] || AlwaysSound(Apply(l, ops[0]), ops[1..]))
  }

  /**
   * A run from a sound ledger, a new one in particular, stays sound throughout if and only if
   * each of its steps is admissible; it then ends in a sound ledger.
   */
  lemma {:induction false} RunSoundExactly(l: Ledger, ops: seq<Op>)
    requires Sound(l)
    ensures AlwaysSound(l, ops) <==> RunAdmissible(l, ops)
    ensures RunAdmissible(l, ops) ==> Sound(Run(l, ops))
    decreases |ops|
  {
    if ops != [] {
      StepSoundExactly(l, ops[0]);
      if Admissible(l, ops[0]) {
        RunSoundExactly(Apply(l, ops[0]), ops[1..]);
      }
    }
  }

  // ------------------------------------------------------------ a concrete case

  const FIRST: Record := Record(COIN, 3, 0, 259_200, 6)
  const SECOND: Record := Record(2 * COIN, 3, 0, 259_200, 12)
  const LOCKED: Record := Record(COIN, 90, 0, 7_776_000, 180)
  const EXAMPLE: Ledger := Ledger(198, 0, 4 * COIN, 0, [FIRST, SECOND, LOCKED])

  lemma ExampleIsSound()
    ensures Sound(EXAMPLE) && Unlockable(EXAMPLE.records, 259_200) == 3 * COIN
  {
    SumCons(FIRST, [SECOND, LOCKED]);
    SumCons(SECOND, [LOCKED]);
    SumCons(LOCKED, []);
    assert EXAMPLE.records == [FIRST] + [SECOND, LOCKED];
    assert [SECOND, LOCKED] == [SECOND] + [LOCKED] && [LOCKED] == [LOCKED] + [];
    assert Unlockable([LOCKED], 259_200) == 0;
    assert EXAMPLE.records[1..] == [SECOND, LOCKED] && [SECOND, LOCKED][1..] == [LOCKED];
  }

  lemma ExamplePlan()
    ensures
      var p := Scan(EXAMPLE.records, 0, 2 * COIN, 259_200);
      p.remaining == 0 && p.removed == [0] && p.edited == [(1, COIN)]
  {
    assert EXAMPLE.records[1..] == [SECOND, LOCKED];
    ScanPartial([SECOND, LOCKED], 1, COIN, 259_200);
  }

  /** Three freezes at height 0: one coin and two coins for 3 days, one coin for 90 days. */
  lemma ExampleIsReached()
    ensures
      Run(Ledger(0, 0, 0, 0, []), [FreezeOp(COIN, 3, 0), FreezeOp(2 * COIN, 3, 0), FreezeOp(COIN, 90, 0)]) == EXAMPLE
  {
    var ops := [FreezeOp(COIN, 3, 0), FreezeOp(2 * COIN, 3, 0), FreezeOp(COIN, 90, 0)];
    var l1 := Ledger(6, 0, COIN, 0, [FIRST]);
    var l2 := Ledger(18, 0, 3 * COIN, 0, [FIRST, SECOND]);
    assert Apply(Ledger(0, 0, 0, 0, []), ops[0]) == l1;
    assert Apply(l1, ops[1]) == l2;
    assert Apply(l2, ops[2]) == EXAMPLE;
    assert ops[1..][1..] == [ops[2]] && [ops[2]][1..] == [];
    assert Run(EXAMPLE, []) == EXAMPLE;
    assert Run(l2, [ops[2]]) == EXAMPLE;
    assert Run(l1, ops[1..]) == EXAMPLE;
  }

  /** A ledger built by three freezes, a request within what is unlocked, and a still locked record that pays for it. */
  lemma LockedRecordPays()
    ensures EXAMPLE == Run(Ledger(0, 0, 0, 0, []), [FreezeOp(COIN, 3, 0), FreezeOp(2 * COIN, 3, 0), FreezeOp(COIN, 90, 0)])
    ensures Sound(EXAMPLE) && 0 < 2 * COIN <= Unlockable(EXAMPLE.records, 259_200)
    ensures
      var (r, l') := Unfreeze(EXAMPLE, 2 * COIN, 259_200);
      && r.Energy? && !Sound(l')
      && !CanUnlock(LOCKED, 259_200) && |l'.records| == 2 && l'.records[1] == Reduce(LOCKED, COIN)
  {
    ExampleIsReached();
    ExampleIsSound();
    ExamplePlan();
    assert Whole(2 * COIN) == 2 * COIN;
    PlannedExactly(EXAMPLE, 2 * COIN, 259_200);
    MisplacedEdit(EXAMPLE, 2 * COIN, 259_200);
    UncleanTotals(EXAMPLE, 2 * COIN, 259_200);
  }
}
