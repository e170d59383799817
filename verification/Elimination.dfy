/** The pairwise kill scan: who dies, who is paid, and what the scores add up to. */
module Elimination {
  import opened Geometry
  import opened SnakeModel

  /** ids lists some snakes of the table, each once. */
  ghost predicate Listed(snakes: Roster, ids: seq<string>)
  {
    && (forall i :: 0 <= i < |ids| ==> ids[i] in snakes)
    && (forall i, j :: 0 <= i < j < |ids| ==> ids[i] != ids[j])
  }

  /** a runs into b: a dies and b is paid half of a's score. */
  function Struck(snakes: Roster, a: string, b: string): (r: Roster)
    requires a in snakes && b in snakes
    ensures r.Keys == snakes.Keys
  {
    snakes[a := Killed(snakes[a])][b := Awarded(snakes[b], Half(snakes[a].score))]
  }

  function Tested(snakes: Roster, a: string, b: string): (r: Roster)
    requires a in snakes && b in snakes
    ensures r.Keys == snakes.Keys
  {
    if Collides(snakes[a], snakes[b]) then Struck(snakes, a, b) else snakes
  }

  // ---- One row is at most one strike ---------------------------------------------------------

  /** The first among n of the list that snake i runs into, or the list's length for none. */
  ghost function Killer(snakes: Roster, ids: seq<string>, i: nat, n: nat): (k: nat)
    requires Listed(snakes, ids) && i < |ids| && n <= |ids|
    ensures k < n || k == |ids|
    ensures k < n ==> k != i && Collides(snakes[ids[i]], snakes[ids[k]])
  {
    if n == 0 then |ids|
    else
      var k := Killer(snakes, ids, i, n - 1);
      if k < |ids| then k
      else if n - 1 != i && Collides(snakes[ids[i]], snakes[ids[n - 1]]) then n - 1
      else |ids|
  }

  lemma {:induction false} KillerIsFirst(snakes: Roster, ids: seq<string>, i: nat, n: nat)
    requires Listed(snakes, ids) && i < |ids| && n <= |ids|
    ensures forall j :: 0 <= j < n && j < Killer(snakes, ids, i, n) && j != i ==>
      !Collides(snakes[ids[i]], snakes[ids[j]])
  {
    if n > 0 {
      KillerIsFirst(snakes, ids, i, n - 1);
    }
  }

  lemma StruckIsDead(snakes: Roster, a: string, b: string, c: string)
    requires a in snakes && b in snakes && c in snakes && a != b
    ensures Tested(Struck(snakes, a, b), a, c) == Struck(snakes, a, b)
  {
    assert !Struck(snakes, a, b)[a].alive;
  }

  /** The state after snake i was tested against the first n of the list: it paid its first hit. */
  ghost function RowAfter(snakes: Roster, ids: seq<string>, i: nat, n: nat): (r: Roster)
    requires Listed(snakes, ids) && i < |ids| && n <= |ids|
    ensures r.Keys == snakes.Keys
  {
    var k := Killer(snakes, ids, i, n);
    if k < |ids| then Struck(snakes, ids[i], ids[k]) else snakes
  }

  /** The inner loop refines RowAfter: a struck snake is dead, hits nothing more and pays nobody else. */
  lemma RowStep(snakes: Roster, ids: seq<string>, i: nat, n: nat)
    requires Listed(snakes, ids) && i < |ids| && n < |ids|
    ensures RowAfter(snakes, ids, i, n + 1) ==
            if n == i then RowAfter(snakes, ids, i, n) else Tested(RowAfter(snakes, ids, i, n), ids[i], ids[n])
  {
    var k := Killer(snakes, ids, i, n);
    if k < |ids| && n != i {
      StruckIsDead(snakes, ids[i], ids[k], ids[n]);
    }
  }

  /** The outer loop after n rows. */
  ghost function Rows(snakes: Roster, ids: seq<string>, n: nat): (r: Roster)
    requires Listed(snakes, ids) && n <= |ids|
    ensures r.Keys == snakes.Keys
  {
    if n == 0 then snakes else RowAfter(Rows(snakes, ids, n - 1), ids, n - 1, |ids|)
  }

  /** From s to t nobody moved, and the dead did not change. */
  ghost predicate SamePlaces(s: Roster, t: Roster)
  {
    && t.Keys == s.Keys
    && (forall id :: id in s ==> t[id].segments == s[id].segments)
    && (forall id :: id in s && !s[id].alive ==> t[id] == s[id])
  }

  /** From s to t the fates in ids[lo..hi] are the same. */
  ghost predicate SameFates(s: Roster, t: Roster, ids: seq<string>, lo: int, hi: int)
    requires Listed(s, ids) && t.Keys == s.Keys && 0 <= lo && hi <= |ids|
  {
    forall i :: lo <= i < hi ==> t[ids[i]].alive == s[ids[i]].alive
  }

  /** The head of listed snake i overlaps snake j, whatever their state. */
  ghost predicate Overlaps(snakes: Roster, ids: seq<string>, i: nat, j: nat)
    requires Listed(snakes, ids) && i < |ids| && j < |ids|
  {
    var head, body := Head(snakes[ids[i]]), snakes[ids[j]].segments;
    exists k :: 0 <= k < |body| && DistSquared(head, body[k]) < 196.0
  }

  /** What row n makes of s: nobody moves, only snake n may die, and it dies exactly of a living snake. */
  ghost predicate RowFacts(s: Roster, t: Roster, ids: seq<string>, n: nat)
    requires Listed(s, ids) && n < |ids|
  {
    && SamePlaces(s, t)
    && SameFates(s, t, ids, 0, n)
    && SameFates(s, t, ids, n + 1, |ids|)
    && (s[ids[n]].alive ==>
          (t[ids[n]].alive <==>
           forall j :: 0 <= j < |ids| && j != n && s[ids[j]].alive ==> !Overlaps(s, ids, n, j)))
  }

  lemma RowEffect(s: Roster, ids: seq<string>, n: nat)
    requires Listed(s, ids) && n < |ids|
    ensures RowFacts(s, RowAfter(s, ids, n, |ids|), ids, n)
  {
    var k := Killer(s, ids, n, |ids|);
    KillerIsFirst(s, ids, n, |ids|);
    if k < |ids| {
      assert ids[n] != ids[k];
      assert Overlaps(s, ids, n, k);
    } else {
      forall j | 0 <= j < |ids| && j != n && s[ids[n]].alive && s[ids[j]].alive
        ensures !Overlaps(s, ids, n, j)
      {
        assert !Collides(s[ids[n]], s[ids[j]]);
      }
    }
  }

  // ---- Who dies ------------------------------------------------------------------------------

  ghost predicate AllAlive(snakes: Roster, ids: seq<string>)
    requires Listed(snakes, ids)
  {
    forall i :: 0 <= i < |ids| ==> snakes[ids[i]].alive
  }

  /** Snake i meets a later snake of the list, or an earlier one that is alive in t. */
  ghost predicate Meets(snakes: Roster, t: Roster, ids: seq<string>, i: nat)
    requires Listed(snakes, ids) && t.Keys == snakes.Keys && i < |ids|
  {
    exists j :: 0 <= j < |ids| && j != i && Overlaps(snakes, ids, i, j) && (j > i || t[ids[j]].alive)
  }

  /** Among the first n of the list, exactly those that meet a later one or a survivor are dead. */
  ghost predicate Decided(snakes: Roster, t: Roster, ids: seq<string>, n: nat)
    requires Listed(snakes, ids) && t.Keys == snakes.Keys && n <= |ids|
  {
    forall i :: 0 <= i < n ==> (t[ids[i]].alive <==> !Meets(snakes, t, ids, i))
  }

  /** t is what n rows may make of a living list: places kept, n fates decided, the rest alive. */
  ghost predicate Scanned(snakes: Roster, t: Roster, ids: seq<string>, n: nat)
    requires Listed(snakes, ids) && n <= |ids|
  {
    && SamePlaces(snakes, t)
    && Decided(snakes, t, ids, n)
    && (forall i :: n <= i < |ids| ==> t[ids[i]].alive)
  }

  lemma MeetsDependsOnEarlier(snakes: Roster, s: Roster, t: Roster,
                              ids: seq<string>, i: nat)
    requires Listed(snakes, ids) && s.Keys == t.Keys == snakes.Keys && i < |ids|
    requires SameFates(s, t, ids, 0, i)
    ensures Meets(snakes, s, ids, i) <==> Meets(snakes, t, ids, i)
  {
  }

  lemma ScannedStep(snakes: Roster, s: Roster, t: Roster,
                    ids: seq<string>, n: nat)
    requires Listed(snakes, ids) && n < |ids|
    requires Scanned(snakes, s, ids, n) && RowFacts(s, t, ids, n)
    ensures Scanned(snakes, t, ids, n + 1)
  {
    forall j | 0 <= j < |ids|
      ensures Overlaps(s, ids, n, j) == Overlaps(snakes, ids, n, j)
    {
      assert s[ids[n]].segments == snakes[ids[n]].segments && s[ids[j]].segments == snakes[ids[j]].segments;
    }
    assert t[ids[n]].alive <==> !Meets(snakes, s, ids, n);
    forall i | 0 <= i < n + 1
      ensures t[ids[i]].alive <==> !Meets(snakes, t, ids, i)
    {
      MeetsDependsOnEarlier(snakes, s, t, ids, i);
    }
  }

  lemma OneMoreRow(snakes: Roster, s: Roster, ids: seq<string>, n: nat)
    returns (t: Roster)
    requires Listed(snakes, ids) && n < |ids|
    requires Scanned(snakes, s, ids, n)
    ensures t == RowAfter(s, ids, n, |ids|) && Scanned(snakes, t, ids, n + 1)
  {
    t := RowAfter(s, ids, n, |ids|);
    RowEffect(s, ids, n);
    ScannedStep(snakes, s, t, ids, n);
  }

  /** The states before the first row, between rows and after the last. */
  ghost predicate IsTrace(states: seq<Roster>, ids: seq<string>)
  {
    && |states| == |ids| + 1
    && (forall n :: 0 <= n < |states| ==> Listed(states[n], ids))
    && (forall n :: 0 <= n < |ids| ==> states[n + 1] == RowAfter(states[n], ids, n, |ids|))
  }

  lemma TraceOfRows(snakes: Roster, ids: seq<string>) returns (states: seq<Roster>)
    requires Listed(snakes, ids)
    ensures IsTrace(states, ids)
    ensures states[0] == snakes && forall n :: 0 <= n <= |ids| ==> states[n] == Rows(snakes, ids, n)
  {
    hide RowAfter;
    states := seq(|ids| + 1, n requires 0 <= n <= |ids| => Rows(snakes, ids, n));
  }

  lemma {:induction false} ScanOfTrace(states: seq<Roster>, ids: seq<string>, n: nat)
    requires IsTrace(states, ids) && AllAlive(states[0], ids) && n <= |ids|
    ensures Scanned(states[0], states[n], ids, n)
  {
    if n > 0 {
      ScanOfTrace(states, ids, n - 1);
      var t := OneMoreRow(states[0], states[n - 1], ids, n - 1);
    }
  }

  /** Sequential elimination, for any pattern of hits and any scan order: exactly those that meet a
      later snake or an earlier survivor die, and nobody moves. */
  lemma SequentialElimination(snakes: Roster, ids: seq<string>) returns (t: Roster)
    requires Listed(snakes, ids) && AllAlive(snakes, ids)
    ensures t == Rows(snakes, ids, |ids|) && Scanned(snakes, t, ids, |ids|)
  {
    var states := TraceOfRows(snakes, ids);
    ScanOfTrace(states, ids, |ids|);
    return states[|ids|];
  }

  /** Survivors keep clear of each other. */
  lemma SurvivorsKeepClear(snakes: Roster, t: Roster, ids: seq<string>, i: nat, j: nat)
    requires Listed(snakes, ids) && i < |ids| && j < |ids| && i != j
    requires Scanned(snakes, t, ids, |ids|)
    ensures !Collides(t[ids[i]], t[ids[j]])
  {
    var hit := Overlaps(snakes, ids, i, j);
    BodyHitExactly(Head(snakes[ids[i]]), snakes[ids[j]].segments);
    assert Collides(t[ids[i]], t[ids[j]]) ==> hit;
  }

  /** Whatever the pattern of hits, somebody survives the scan. */
  lemma SomebodySurvives(snakes: Roster, ids: seq<string>)
    requires Listed(snakes, ids) && AllAlive(snakes, ids) && ids != []
    ensures exists i :: 0 <= i < |ids| && Rows(snakes, ids, |ids|)[ids[i]].alive
  {
    var t := SequentialElimination(snakes, ids);
    var last := |ids| - 1;
    if !t[ids[last]].alive {
      var j :| 0 <= j < |ids| && j != last && Overlaps(snakes, ids, last, j) && (j > last || t[ids[j]].alive);
      assert t[ids[j]].alive;
    }
  }

  // ---- Fates read off the input ----------------------------------------------------------------

  /** Snake i of the list runs into a later snake, or into an earlier one that does not fall itself.
      Only the bodies as the scan finds them are consulted. */
  ghost predicate Falls(snakes: Roster, ids: seq<string>, i: nat)
    requires Listed(snakes, ids) && i < |ids|
    decreases i
  {
    exists j :: 0 <= j < |ids| && j != i && Overlaps(snakes, ids, i, j) && (j > i || !Falls(snakes, ids, j))
  }

  lemma {:induction false} ScannedFates(snakes: Roster, t: Roster, ids: seq<string>, i: nat, n: nat)
    requires Listed(snakes, ids) && i < n <= |ids| && Scanned(snakes, t, ids, n)
    ensures t[ids[i]].alive <==> !Falls(snakes, ids, i)
    decreases i
  {
    hide Overlaps;
    forall j | 0 <= j < i
      ensures t[ids[j]].alive <==> !Falls(snakes, ids, j)
    {
      ScannedFates(snakes, t, ids, j, n);
    }
    assert Meets(snakes, t, ids, i) <==> Falls(snakes, ids, i);
  }

  /** The scan kills exactly the snakes that fall. */
  lemma FatesAreForeseen(snakes: Roster, ids: seq<string>, i: nat)
    requires Listed(snakes, ids) && AllAlive(snakes, ids) && i < |ids|
    ensures !Rows(snakes, ids, |ids|)[ids[i]].alive <==> Falls(snakes, ids, i)
  {
    var t := SequentialElimination(snakes, ids);
    ScannedFates(snakes, t, ids, i, |ids|);
  }

  /** Of two snakes that hit each other the earlier-scanned dies, and the other dies too exactly when it
      also runs into a third: a later one, or an earlier one that does not fall. */
  lemma HeadOnKillsBoth(snakes: Roster, ids: seq<string>, i: nat, j: nat)
    requires Listed(snakes, ids) && AllAlive(snakes, ids) && i < j < |ids|
    requires Overlaps(snakes, ids, i, j) && Overlaps(snakes, ids, j, i)
    ensures
      var t := Rows(snakes, ids, |ids|);
      && !t[ids[i]].alive
      && (!t[ids[j]].alive <==>
          exists k :: 0 <= k < |ids| && k != i && k != j && Overlaps(snakes, ids, j, k) &&
                      (k > j || !Falls(snakes, ids, k)))
  {
    FatesAreForeseen(snakes, ids, i);
    FatesAreForeseen(snakes, ids, j);
    hide Overlaps, Rows;
    assert Falls(snakes, ids, i);
  }

  /** The snake that is paid for a victim survives the scan exactly if it does not fall itself; if it
      comes before its victim in the list, it never does. */
  lemma PaidSnakeSurvivesExactly(snakes: Roster, ids: seq<string>, n: nat)
    requires Listed(snakes, ids) && AllAlive(snakes, ids) && n < |ids|
    ensures
      var k := Killer(Rows(snakes, ids, n), ids, n, |ids|);
      k < |ids| ==>
        && (Rows(snakes, ids, |ids|)[ids[k]].alive <==> !Falls(snakes, ids, k))
        && (k < n ==> !Falls(snakes, ids, k))
  {
    hide Overlaps, Rows, Scanned;
    var states := TraceOfRows(snakes, ids);
    ScanOfTrace(states, ids, n);
    var k := Killer(Rows(snakes, ids, n), ids, n, |ids|);
    if k < |ids| {
      FatesAreForeseen(snakes, ids, k);
      if k < n {
        ScannedFates(snakes, states[n], ids, k, n);
      }
    }
  }

  /** Of three snakes spawned 10 apart on one line the first falls to the second, which then falls to the
      third: who is paid for a kill need not survive. */
  lemma PaidSnakeDies(pos: Vec2) returns (snakes: Roster)
    ensures Listed(snakes, ["a", "b", "c"]) && AllAlive(snakes, ["a", "b", "c"])
    ensures Killer(snakes, ["a", "b", "c"], 0, 3) == 1
    ensures !Rows(snakes, ["a", "b", "c"], 3)["b"].alive
  {
    var a, b := Spawned("a", "a", pos), Spawned("b", "b", Vec2(pos.x + 10.0, pos.y));
    var c := Spawned("c", "c", Vec2(pos.x + 20.0, pos.y));
    snakes := map["a" := a, "b" := b, "c" := c];
    var ids := ["a", "b", "c"];
    assert Touches(Head(a), b.segments[0]) && Touches(Head(b), c.segments[0]);
    assert Killer(snakes, ids, 0, 1) == 3;
    assert Killer(snakes, ids, 0, 2) == 1;
    FatesAreForeseen(snakes, ids, 1);
    assert Overlaps(snakes, ids, 1, 2);
  }

  /** A mutual hit of two, scanned in this order, is one strike. */
  lemma HeadOnOfTwo(snakes: Roster, a: string, b: string)
    requires a in snakes && b in snakes && a != b && Collides(snakes[a], snakes[b])
    ensures Rows(snakes, [a, b], 2) == Struck(snakes, a, b)
  {
    var ids := [a, b];
    assert Killer(snakes, ids, 0, 1) == 2;
    assert Killer(snakes, ids, 0, 2) == 1;
    var t := Struck(snakes, a, b);
    assert Rows(snakes, ids, 0) == snakes;
    assert Rows(snakes, ids, 1) == t;
    assert Killer(t, ids, 1, 1) == 2;
    assert Killer(t, ids, 1, 2) == 2;
  }

  lemma NobodyToMeet(snakes: Roster, a: string)
    requires a in snakes
    ensures Rows(snakes, [a], 1) == snakes
  {
    assert Killer(snakes, [a], 0, 1) == 1;
    assert Rows(snakes, [a], 0) == snakes;
  }
}
