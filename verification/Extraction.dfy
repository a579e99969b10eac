/**
 * Taking the entries that satisfy a predicate out of a list that is visited in some other
 * order, by a caller that may stop early: what is kept, and what is never visited.
 */
module Extraction {
  import opened Base

  /** The entries that do not satisfy `f`. */
  function Keep<K, V>(c: seq<(K, V)>, f: (K, V) -> bool): seq<(K, V)> {
    if c == [] then []
    else
      var front, last := Keep(c[..|c| - 1], f), c[|c| - 1];
      if f(last.0, last.1) then front else front + [last]
  }

  function Cut<T>(s: seq<T>, i: nat): seq<T>
    requires i < |s|
  {
    s[..i] + s[i + 1..]
  }

  lemma CutAt<T>(s: seq<T>, i: nat)
    requires i < |s|
    ensures |Cut(s, i)| == |s| - 1
    ensures forall j :: 0 <= j < |s| - 1 ==> Cut(s, i)[j] == s[if j < i then j else j + 1]
  {}

  lemma CutMultiset<T>(s: seq<T>, i: nat)
    requires i < |s|
    ensures multiset([s[i]]) + multiset(Cut(s, i)) == multiset(s)
  {
    assert s == s[..i] + [s[i]] + s[i + 1..];
  }

  /** An entry that satisfies `f` may as well be taken out first. */
  lemma {:induction false} KeepCut<K, V>(c: seq<(K, V)>, i: nat, f: (K, V) -> bool)
    requires i < |c| && f(c[i].0, c[i].1)
    ensures Keep(Cut(c, i), f) == Keep(c, f)
    decreases |c|
  {
    var n := |c| - 1;
    if i == n {
      assert Cut(c, i) == c[..n];
    } else {
      KeepCut(c[..n], i, f);
      KeepAppend(Cut(c[..n], i), c[n], f);
      CutAppend(c, i);
    }
  }

  lemma CutAppend<T>(s: seq<T>, i: nat)
    requires i < |s| - 1
    ensures Cut(s, i) == Cut(s[..|s| - 1], i) + [s[|s| - 1]]
  {}

  lemma KeepAppend<K, V>(c: seq<(K, V)>, e: (K, V), f: (K, V) -> bool)
    ensures Keep(c + [e], f) == if f(e.0, e.1) then Keep(c, f) else Keep(c, f) + [e]
  {
    assert (c + [e])[..|c|] == c;
  }

  lemma {:induction false} KeepAll<K, V>(c: seq<(K, V)>, f: (K, V) -> bool)
    requires forall i :: 0 <= i < |c| ==> !f(c[i].0, c[i].1)
    ensures Keep(c, f) == c
    decreases |c|
  {
    if c != [] {
      KeepAll(c[..|c| - 1], f);
      assert c == c[..|c| - 1] + [c[|c| - 1]];
    }
  }

  // ------------------------------------------------------- stopping early

  /** How many entries satisfy `f`. */
  function Matches<K, V>(c: seq<(K, V)>, f: (K, V) -> bool): nat {
    if c == [] then 0 else (if f(c[0].0, c[0].1) then 1 else 0) + Matches(c[1..], f)
  }

  /** The entries still to come when `wanted` of them have been handed out. */
  function Unvisited<K, V>(run: seq<(K, V)>, f: (K, V) -> bool, wanted: nat): seq<(K, V)>
    decreases |run|
  {
    if run == [] || wanted == 0 then run
    else Unvisited(run[1..], f, if f(run[0].0, run[0].1) then wanted - 1 else wanted)
  }

  /** The order in which the hash map yields its entries: any order of the contents. */
  ghost predicate Permutes<K, V>(run: seq<(K, V)>, c: seq<(K, V)>) {
    multiset(run) == multiset(c)
  }

  lemma {:induction false} MatchesCut<K, V>(c: seq<(K, V)>, i: nat, f: (K, V) -> bool)
    requires i < |c|
    ensures Matches(c, f) == Matches(Cut(c, i), f) + if f(c[i].0, c[i].1) then 1 else 0
    decreases |c|
  {
    if i == 0 {
      assert Cut(c, 0) == c[1..];
    } else {
      MatchesCut(c[1..], i - 1, f);
      var d := Cut(c, i);
      assert d[0] == c[0] && d[1..] == Cut(c[1..], i - 1);
    }
  }

  /** What does not match is kept. */
  lemma {:induction false} MatchesOrKept<K, V>(c: seq<(K, V)>, f: (K, V) -> bool)
    ensures Matches(c, f) + |Keep(c, f)| == |c|
    decreases |c|
  {
    if c != [] {
      var n := |c| - 1;
      assert Cut(c, n) == c[..n];
      MatchesCut(c, n, f);
      MatchesOrKept(c[..n], f);
    }
  }

  lemma Cancel<T>(a: multiset<T>, x: multiset<T>, y: multiset<T>)
    requires a + x == a + y
    ensures x == y
  {
    assert (a + x) - a == x && (a + y) - a == y;
  }

  /** The order does not change how many match. */
  lemma {:induction false} MatchesPermuted<K, V>(run: seq<(K, V)>, c: seq<(K, V)>, f: (K, V) -> bool)
    requires Permutes(run, c)
    ensures |run| == |c| && Matches(run, f) == Matches(c, f)
    decreases |c|
  {
    assert |run| == |multiset(run)| && |c| == |multiset(c)|;
    if c != [] {
      assert c[0] in multiset(run);
      var i :| 0 <= i < |run| && run[i] == c[0];
      CutMultiset(run, i);
      CutMultiset(c, 0);
      assert Cut(c, 0) == c[1..];
      Cancel(multiset([c[0]]), multiset(Cut(run, i)), multiset(c[1..]));
      MatchesPermuted(Cut(run, i), c[1..], f);
      MatchesCut(run, i, f);
    }
  }

  /** Nothing is left when more is asked for than matches, or as much as there is. */
  lemma {:induction false} AskedForMore<K, V>(run: seq<(K, V)>, f: (K, V) -> bool, wanted: nat)
    requires wanted > Matches(run, f) || wanted >= |run|
    ensures Unvisited(run, f, wanted) == []
    decreases |run|
  {
    if run != [] {
      AskedForMore(run[1..], f, if f(run[0].0, run[0].1) then wanted - 1 else wanted);
    }
  }

  /** Something is left when less is asked for than matches. */
  lemma {:induction false} AskedForLess<K, V>(run: seq<(K, V)>, f: (K, V) -> bool, wanted: nat)
    requires wanted < Matches(run, f)
    ensures Unvisited(run, f, wanted) != []
    decreases |run|
  {
    if wanted > 0 {
      AskedForLess(run[1..], f, if f(run[0].0, run[0].1) then wanted - 1 else wanted);
    }
  }

  /** Whatever the order, nothing is left. */
  ghost predicate Drained<K, V>(c: seq<(K, V)>, f: (K, V) -> bool, wanted: Option<nat>) {
    wanted.None? || wanted.value > Matches(c, f) || wanted.value >= |c|
  }

  /** Whatever the order, something is left. */
  ghost predicate CutShort<K, V>(c: seq<(K, V)>, f: (K, V) -> bool, wanted: Option<nat>) {
    wanted.Some? && (wanted.value < Matches(c, f) || (wanted.value == 0 && c != []))
  }

  ghost function LeftOver<K, V>(run: seq<(K, V)>, f: (K, V) -> bool, wanted: Option<nat>): seq<(K, V)> {
    if wanted.None? then [] else Unvisited(run, f, wanted.value)
  }

  /** The two cases in which the order does not matter. */
  lemma DecidedByCounts<K, V>(run: seq<(K, V)>, c: seq<(K, V)>, f: (K, V) -> bool, wanted: Option<nat>)
    requires Permutes(run, c)
    ensures Drained(c, f, wanted) ==> LeftOver(run, f, wanted) == []
    ensures CutShort(c, f, wanted) ==> LeftOver(run, f, wanted) != []
  {
    MatchesPermuted(run, c, f);
    if wanted.Some? {
      if Drained(c, f, wanted) {
        AskedForMore(run, f, wanted.value);
      }
      if wanted.value < Matches(c, f) {
        AskedForLess(run, f, wanted.value);
      }
    }
  }

  // ---------------------------------------------- the case the order decides

  /** The entries that satisfy `f`. */
  function Taken<K, V>(c: seq<(K, V)>, f: (K, V) -> bool): seq<(K, V)> {
    if c == [] then []
    else
      var front, last := Taken(c[..|c| - 1], f), c[|c| - 1];
      if f(last.0, last.1) then front + [last] else front
  }

  lemma Snoc<T>(s: seq<T>, x: T)
    ensures multiset(s + [x]) == multiset(s) + multiset{x}
  {}

  lemma {:induction false} TakenOrKept<K, V>(c: seq<(K, V)>, f: (K, V) -> bool)
    ensures multiset(Taken(c, f)) + multiset(Keep(c, f)) == multiset(c)
    ensures |Taken(c, f)| + |Keep(c, f)| == |c|
    decreases |c|
  {
    if c != [] {
      var front, last := c[..|c| - 1], c[|c| - 1];
      TakenOrKept(front, f);
      assert c == front + [last];
      Snoc(Taken(front, f), last);
      Snoc(Keep(front, f), last);
      Snoc(front, last);
    }
  }

  lemma {:induction false} TakenMatch<K, V>(c: seq<(K, V)>, f: (K, V) -> bool)
    ensures forall i :: 0 <= i < |Taken(c, f)| ==> f(Taken(c, f)[i].0, Taken(c, f)[i].1)
    decreases |c|
  {
    if c != [] {
      TakenMatch(c[..|c| - 1], f);
    }
  }

  lemma {:induction false} KeptDoNot<K, V>(c: seq<(K, V)>, f: (K, V) -> bool)
    ensures forall i :: 0 <= i < |Keep(c, f)| ==> !f(Keep(c, f)[i].0, Keep(c, f)[i].1)
    decreases |c|
  {
    if c != [] {
      KeptDoNot(c[..|c| - 1], f);
    }
  }

  lemma {:induction false} SkipKept<K, V>(a: seq<(K, V)>, b: seq<(K, V)>, f: (K, V) -> bool, wanted: nat)
    requires wanted > 0 && forall i :: 0 <= i < |a| ==> !f(a[i].0, a[i].1)
    ensures Unvisited(a + b, f, wanted) == Unvisited(b, f, wanted)
    decreases |a|
  {
    if a == [] {
      assert a + b == b;
    } else {
      assert (a + b)[1..] == a[1..] + b;
      SkipKept(a[1..], b, f, wanted);
    }
  }

  lemma {:induction false} HandOut<K, V>(a: seq<(K, V)>, b: seq<(K, V)>, f: (K, V) -> bool)
    requires forall i :: 0 <= i < |a| ==> f(a[i].0, a[i].1)
    ensures Unvisited(a + b, f, |a|) == b
    decreases |a|
  {
    if a == [] {
      assert a + b == b;
    } else {
      assert (a + b)[1..] == a[1..] + b;
      HandOut(a[1..], b, f);
    }
  }

  /** When exactly the matches are asked for and not everything matches, one order leaves something and another does not. */
  lemma OrderDecides<K, V>(c: seq<(K, V)>, f: (K, V) -> bool, wanted: nat)
    returns (early: seq<(K, V)>, late: seq<(K, V)>)
    requires 0 < wanted == Matches(c, f) < |c|
    ensures Permutes(early, c) && Unvisited(early, f, wanted) != []
    ensures Permutes(late, c) && Unvisited(late, f, wanted) == []
  {
    var t, k := Taken(c, f), Keep(c, f);
    TakenOrKept(c, f);
    TakenMatch(c, f);
    KeptDoNot(c, f);
    MatchesOrKept(c, f);
    early, late := t + k, k + t;
    HandOut(t, k, f);
    SkipKept(k, t, f, wanted);
    HandOut(t, [], f);
    assert t + [] == t;
  }

  /** Every request is of one of the three kinds. */
  lemma ThreeKinds<K, V>(c: seq<(K, V)>, f: (K, V) -> bool, wanted: Option<nat>)
    ensures Drained(c, f, wanted) || CutShort(c, f, wanted) || (wanted.Some? && 0 < wanted.value == Matches(c, f) < |c|)
    ensures !(Drained(c, f, wanted) && CutShort(c, f, wanted))
  {
    MatchesOrKept(c, f);
  }
}
