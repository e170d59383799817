/** How scores move in the pairwise scan: victims pay half, and nothing is created. */
module ScoreFlow {
  import opened MapTotals
  import opened SnakeModel
  import opened Elimination

  function LivingScore(s: SnakeState): int
  {
    if s.alive then s.score else 0
  }

  ghost function LivingScores(snakes: Roster): map<string, int>
  {
    map id | id in snakes :: LivingScore(snakes[id])
  }

  ghost function LivingTotal(snakes: Roster): int
  {
    Total(LivingScores(snakes))
  }

  ghost function Awards(snakes: Roster): map<string, int>
  {
    map id | id in snakes :: snakes[id].past.awarded
  }

  /** Half the final score of everyone who was alive in s and is dead in t. */
  ghost function Payments(s: Roster, t: Roster): map<string, int>
    requires t.Keys == s.Keys
  {
    map id | id in s :: if s[id].alive && !t[id].alive then Half(t[id].score) else 0
  }

  /** Scores are within 0..cap, and the living together do not exceed the cap either. */
  ghost predicate Capped(snakes: Roster, cap: int)
  {
    && (forall id :: id in snakes ==> 0 <= snakes[id].score <= cap)
    && LivingTotal(snakes) <= cap
  }

  lemma LivingScoreIsCapped(snakes: Roster, id: string)
    requires id in snakes && snakes[id].alive
    requires forall j :: j in snakes ==> 0 <= snakes[j].score
    ensures snakes[id].score <= LivingTotal(snakes)
  {
    TermAtMostTotal(LivingScores(snakes), id);
  }

  lemma LivingTotalUpdate(snakes: Roster, id: string, s: SnakeState)
    requires id in snakes
    ensures LivingTotal(snakes[id := s]) == LivingTotal(snakes) - LivingScore(snakes[id]) + LivingScore(s)
  {
    assert LivingScores(snakes[id := s]) == LivingScores(snakes)[id := LivingScore(s)];
    TotalUpdate(LivingScores(snakes), id, LivingScore(s));
  }

  /** A strike removes the victim's score from the living and hands half of it on. */
  lemma StrikeMovesScore(snakes: Roster, a: string, b: string)
    requires a in snakes && b in snakes && a != b && snakes[a].alive && snakes[b].alive
    ensures LivingTotal(Struck(snakes, a, b)) == LivingTotal(snakes) - snakes[a].score + Half(snakes[a].score)
  {
    LivingTotalUpdate(snakes, a, Killed(snakes[a]));
    LivingTotalUpdate(snakes[a := Killed(snakes[a])], b, Awarded(snakes[b], Half(snakes[a].score)));
  }

  lemma StrikeIsAwarded(snakes: Roster, a: string, b: string)
    requires a in snakes && b in snakes && a != b
    ensures Total(Awards(Struck(snakes, a, b))) == Total(Awards(snakes)) + Half(snakes[a].score)
  {
    var sum := snakes[b].past.awarded + Half(snakes[a].score);
    assert Awards(Struck(snakes, a, b)) == Awards(snakes)[b := sum];
    TotalUpdate(Awards(snakes), b, sum);
  }

  lemma StrikeIsPaidFor(start: Roster, s: Roster, a: string, b: string)
    requires start.Keys == s.Keys && a in s && b in s && a != b && s[a].alive && s[b].alive && start[a].alive
    ensures Total(Payments(start, Struck(s, a, b))) == Total(Payments(start, s)) + Half(s[a].score)
  {
    assert Payments(start, Struck(s, a, b)) == Payments(start, s)[a := Half(s[a].score)];
    TotalUpdate(Payments(start, s), a, Half(s[a].score));
  }

  /** The account of a scan that began in start and reached t: the awards received are exactly half of
      every victim's final score, and the living have lost at least that much. */
  ghost predicate Balanced(start: Roster, t: Roster)
  {
    && t.Keys == start.Keys
    && (forall id :: id in t && t[id].alive ==> start[id].alive)
    && (forall id :: id in t ==> t[id].score >= 0)
    && Total(Awards(t)) == Total(Awards(start)) + Total(Payments(start, t))
    && LivingTotal(t) + Total(Payments(start, t)) <= LivingTotal(start)
  }

  lemma StartIsBalanced(start: Roster)
    requires forall id :: id in start ==> start[id].score >= 0
    ensures Balanced(start, start)
  {
    TotalOfZeros(Payments(start, start));
  }

  lemma StrikeKeepsBalance(start: Roster, s: Roster, a: string, b: string)
    requires Balanced(start, s) && a in s && b in s && a != b && s[a].alive && s[b].alive
    ensures Balanced(start, Struck(s, a, b))
  {
    hide Awards, Payments, LivingTotal;
    StrikeMovesScore(s, a, b);
    StrikeIsAwarded(s, a, b);
    StrikeIsPaidFor(start, s, a, b);
  }

  lemma StrikeKeepsCap(s: Roster, a: string, b: string, cap: int)
    requires Capped(s, cap) && a in s && b in s && a != b && s[a].alive && s[b].alive
    ensures Capped(Struck(s, a, b), cap)
  {
    var t := Struck(s, a, b);
    StrikeMovesScore(s, a, b);
    assert forall id :: id in t ==> 0 <= t[id].score;
    LivingScoreIsCapped(t, b);
  }

  /** Amortised score bound at every point of the scan: after any rows and part of the next one. */
  lemma {:induction false} ScanIsBalanced(
      states: seq<Roster>, ids: seq<string>, n: nat, cap: int)
    requires IsTrace(states, ids) && n <= |ids|
    requires Capped(states[0], cap)
    ensures Balanced(states[0], states[n]) && Capped(states[n], cap)
    ensures forall m :: n < |ids| && 0 <= m <= |ids| ==>
      var t := RowAfter(states[n], ids, n, m);
      Balanced(states[0], t) && Capped(t, cap)
  {
    if n == 0 {
      StartIsBalanced(states[0]);
    } else {
      ScanIsBalanced(states, ids, n - 1, cap);
      assert states[n] == RowAfter(states[n - 1], ids, n - 1, |ids|);
    }
    forall m | n < |ids| && 0 <= m <= |ids|
      ensures
        var t := RowAfter(states[n], ids, n, m);
        Balanced(states[0], t) && Capped(t, cap)
    {
      var k := Killer(states[n], ids, n, m);
      if k < |ids| {
        StrikeKeepsBalance(states[0], states[n], ids[n], ids[k]);
        StrikeKeepsCap(states[n], ids[n], ids[k], cap);
      }
    }
  }

  // ---- Who pays whom ------------------------------------------------------------------------------

  /** Half a score, rounded towards zero. */
  lemma HalfIsHalf(n: int)
    ensures n >= 0 ==> 2 * Half(n) <= n <= 2 * Half(n) + 1
    ensures Half(-n) == -Half(n)
  {
  }

  /** Row n, told from bodies and scores: its snake, if alive, dies of the first living snake of the list
      it runs into, whose score alone changes and grows by half the victim's. Returns that snake's place,
      or the length of the list if there is none, and then nothing happens. */
  lemma RowPaysHalf(s: Roster, ids: seq<string>, n: nat) returns (k: nat)
    requires Listed(s, ids) && n < |ids|
    ensures k <= |ids| && k != n
    ensures forall j: nat :: j < k && j < |ids| && j != n && s[ids[n]].alive && s[ids[j]].alive ==>
      !Overlaps(s, ids, n, j)
    ensures k == |ids| ==> RowAfter(s, ids, n, |ids|) == s
    ensures k < |ids| ==>
      var t, victim, killer := RowAfter(s, ids, n, |ids|), ids[n], ids[k];
      var paid := t[killer].score - s[killer].score;
      && s[victim].alive && s[killer].alive && Overlaps(s, ids, n, k)
      && !t[victim].alive && t[killer].alive && t[victim].score == s[victim].score
      && (s[victim].score >= 0 ==> 2 * paid <= s[victim].score <= 2 * paid + 1)
      && t[killer].past.awarded == s[killer].past.awarded + paid
      && t.Keys == s.Keys && forall id :: id in s && id != victim && id != killer ==> t[id] == s[id]
  {
    k := Killer(s, ids, n, |ids|);
    KillerIsFirst(s, ids, n, |ids|);
    forall j: nat | j < |ids|
      ensures HitsBody(Head(s[ids[n]]), s[ids[j]].segments) == Overlaps(s, ids, n, j)
    {
      BodyHitExactly(Head(s[ids[n]]), s[ids[j]].segments);
    }
    hide HitsBody, Overlaps;
    if k < |ids| {
      assert ids[k] != ids[n];
      HalfIsHalf(s[ids[n]].score);
    }
  }
}
