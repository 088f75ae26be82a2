/**
  What the two effect loops do to an account: the sequential loops over effects agree with a
  simultaneous update of every stat, and their totals telescope.
 */
module Postings {
  import opened Leveling
  import opened Scores
  import opened Ledger

  // ---------------------------------------------------------------- sum of a user's stat xp

  ghost function SumXp(stats: map<StatId, Score>): int
    decreases |stats|
  {
    if stats == map[] then 0
    else
      var s :| s in stats;
      assert |stats.Keys - {s}| < |stats.Keys|;
      assert (stats - {s}).Keys == stats.Keys - {s};
      stats[s].xp + SumXp(stats - {s})
  }

  lemma {:induction false} SumXpTakeOut(stats: map<StatId, Score>, s: StatId)
    requires s in stats
    ensures SumXp(stats) == stats[s].xp + SumXp(stats - {s})
    decreases |stats|
  {
    var t :| t in stats && SumXp(stats) == stats[t].xp + SumXp(stats - {t});
    if t != s {
      assert (stats - {t}).Keys == stats.Keys - {t};
      assert |stats.Keys - {t}| < |stats.Keys|;
      SumXpTakeOut(stats - {t}, s);
      assert stats - {t} - {s} == stats - {s} - {t};
      assert (stats - {s}).Keys == stats.Keys - {s};
      assert |stats.Keys - {s}| < |stats.Keys|;
      SumXpTakeOut(stats - {s}, t);
    }
  }

  lemma SumXpUpdate(stats: map<StatId, Score>, s: StatId, score: Score)
    ensures SumXp(stats[s := score]) == SumXp(stats) - ScoreOf(stats, s).xp + score.xp
  {
    var after := stats[s := score];
    SumXpTakeOut(after, s);
    if s in stats {
      SumXpTakeOut(stats, s);
      assert after - {s} == stats - {s};
    } else {
      assert after - {s} == stats;
    }
  }

  lemma {:induction false} SumXpNonNegative(stats: map<StatId, Score>)
    requires forall s | s in stats :: 0 <= stats[s].xp
    ensures 0 <= SumXp(stats)
    ensures SumXp(stats) == 0 <==> forall s | s in stats :: stats[s].xp == 0
    decreases |stats|
  {
    if stats != map[] {
      var t :| t in stats;
      SumXpTakeOut(stats, t);
      assert (stats - {t}).Keys == stats.Keys - {t};
      assert |stats.Keys - {t}| < |stats.Keys|;
      SumXpNonNegative(stats - {t});
      assert forall s | s in stats && s != t :: s in stats - {t};
    }
  }

  // ---------------------------------------------------------------- lists of effects

  lemma {:induction false} AmountOnAbsent(effects: seq<Effect>, s: StatId)
    requires s !in Ids(effects)
    ensures AmountOn(effects, s) == 0
  {
    if effects != [] {
      AmountOnAbsent(effects[..|effects| - 1], s);
    }
  }

  lemma {:induction false} SameIds(a: seq<Effect>, b: seq<Effect>)
    requires |a| == |b| && forall i | 0 <= i < |a| :: a[i].statId == b[i].statId
    ensures Ids(a) == Ids(b)
    ensures Distinct(a) <==> Distinct(b)
  {
    if a != [] {
      SameIds(a[..|a| - 1], b[..|b| - 1]);
    }
  }

  lemma {:induction false} AmountAtIndex(effects: seq<Effect>, i: nat)
    requires Distinct(effects) && i < |effects|
    ensures AmountOn(effects, effects[i].statId) == effects[i].xp
    ensures effects[i].statId in Ids(effects)
  {
    var n := |effects| - 1;
    if i < n {
      AmountAtIndex(effects[..n], i);
    } else {
      AmountOnAbsent(effects[..n], effects[n].statId);
    }
  }

  // ---------------------------------------------------------------- the log loop

  lemma PostOneTelescopes(p: Posting, s: StatId, rawDelta: int)
    ensures var next := PostOne(p, s, rawDelta);
            var delta := ScoreOf(next.stats, s).xp - ScoreOf(p.stats, s).xp;
            && next.total == p.total + delta
            && next.effects == p.effects + [Effect(s, delta)]
            && next.effects[..|next.effects| - 1] == p.effects
            && SumXp(next.stats) == SumXp(p.stats) + delta
            && (forall t | t != s :: ScoreOf(next.stats, t) == ScoreOf(p.stats, t))
            && next.stats.Keys == p.stats.Keys + {s}
  {
    SumXpUpdate(p.stats, s, Bump(ScoreOf(p.stats, s), rawDelta));
  }

  lemma {:induction false} PostKeys(stats: map<StatId, Score>, effects: seq<Effect>, quantity: int)
    ensures var p := Post(stats, effects, quantity);
            && p.stats.Keys == stats.Keys + Ids(effects)
            && |p.effects| == |effects|
            && (forall i | 0 <= i < |effects| :: p.effects[i].statId == effects[i].statId)
  {
    if effects != [] {
      var n := |effects| - 1;
      PostKeys(stats, effects[..n], quantity);
      PostOneTelescopes(Post(stats, effects[..n], quantity), effects[n].statId, effects[n].xp * quantity);
    }
  }

  lemma PostShape(stats: map<StatId, Score>, effects: seq<Effect>, quantity: int)
    ensures var p := Post(stats, effects, quantity);
            && p.stats.Keys == stats.Keys + Ids(effects)
            && Ids(p.effects) == Ids(effects)
            && (Distinct(p.effects) <==> Distinct(effects))
  {
    PostKeys(stats, effects, quantity);
    SameIds(Post(stats, effects, quantity).effects, effects);
  }

  /** Whatever the effects, the recorded amounts are exactly the changes made to the rows, and
      the total is both their sum and the change to the sum of the rows. */
  lemma {:induction false} PostTelescopes(stats: map<StatId, Score>, effects: seq<Effect>, quantity: int, s: StatId)
    ensures var p := Post(stats, effects, quantity);
            && p.total == SumAmounts(p.effects) == SumXp(p.stats) - SumXp(stats)
            && AmountOn(p.effects, s) == ScoreOf(p.stats, s).xp - ScoreOf(stats, s).xp
  {
    if effects != [] {
      var n := |effects| - 1;
      PostTelescopes(stats, effects[..n], quantity, s);
      PostOneTelescopes(Post(stats, effects[..n], quantity), effects[n].statId, effects[n].xp * quantity);
    }
  }

  /** With distinct stats the loop is one simultaneous bump of every stat it names. */
  lemma {:induction false} PostPointwise(
      stats: map<StatId, Score>, effects: seq<Effect>, quantity: int, s: StatId)
    requires Distinct(effects)
    ensures ScoreOf(Post(stats, effects, quantity).stats, s)
         == if s in Ids(effects) then Bump(ScoreOf(stats, s), AmountOn(effects, s) * quantity)
            else ScoreOf(stats, s)
  {
    if effects != [] {
      var n := |effects| - 1;
      var init := effects[..n];
      PostPointwise(stats, init, quantity, s);
      if s == effects[n].statId {
        AmountOnAbsent(init, s);
      }
    }
  }

  // ---------------------------------------------------------------- the delete loop

  /** The xp the floors add back when a log is reverted: the part of each applied amount that
      the row no longer holds. */
  function Shortfall(stats: map<StatId, Score>, effects: seq<Effect>): int {
    if effects == [] then 0
    else
      var last := effects[|effects| - 1];
      Shortfall(stats, effects[..|effects| - 1]) + Max(0, last.xp - ScoreOf(stats, last.statId).xp)
  }

  lemma {:induction false} UnpostKeys(stats: map<StatId, Score>, effects: seq<Effect>)
    ensures Unpost(stats, effects).Keys == stats.Keys
  {
    if effects != [] {
      UnpostKeys(stats, effects[..|effects| - 1]);
    }
  }

  /** With distinct stats the delete loop is one simultaneous bump by the negated amounts; a stat
      without a row is passed over. */
  lemma {:induction false} UnpostPointwise(stats: map<StatId, Score>, effects: seq<Effect>, s: StatId)
    requires Distinct(effects)
    ensures Unpost(stats, effects).Keys == stats.Keys
    ensures ScoreOf(Unpost(stats, effects), s)
         == if s in Ids(effects) && s in stats then Bump(stats[s], -AmountOn(effects, s))
            else ScoreOf(stats, s)
  {
    UnpostKeys(stats, effects);
    if effects != [] {
      var n := |effects| - 1;
      var init := effects[..n];
      UnpostKeys(stats, init);
      UnpostPointwise(stats, init, s);
      if s == effects[n].statId {
        AmountOnAbsent(init, s);
      }
    }
  }

  /** The sum of the rows falls by the reverted amounts, less exactly the shortfall. */
  lemma {:induction false} UnpostSum(stats: map<StatId, Score>, effects: seq<Effect>)
    requires Distinct(effects) && Ids(effects) <= stats.Keys
    ensures SumXp(Unpost(stats, effects)) == SumXp(stats) - SumAmounts(effects) + Shortfall(stats, effects)
  {
    if effects != [] {
      var n := |effects| - 1;
      var init := effects[..n];
      var s := effects[n].statId;
      UnpostKeys(stats, init);
      UnpostSum(stats, init);
      UnpostPointwise(stats, init, s);
      var rest := Unpost(stats, init);
      SumXpUpdate(rest, s, Bump(rest[s], -effects[n].xp));
    }
  }

  lemma {:induction false} ShortfallSign(stats: map<StatId, Score>, effects: seq<Effect>)
    ensures 0 <= Shortfall(stats, effects)
    ensures Shortfall(stats, effects) == 0
            <==> forall i | 0 <= i < |effects| :: effects[i].xp <= ScoreOf(stats, effects[i].statId).xp
  {
    if effects != [] {
      ShortfallSign(stats, effects[..|effects| - 1]);
    }
  }

  // ---------------------------------------------------------------- one more turn of each loop

  lemma PostNothing(stats: map<StatId, Score>, effects: seq<Effect>, quantity: int)
    ensures Post(stats, effects[..0], quantity) == Posting(stats, 0, [])
    ensures PostReports(stats, effects[..0], quantity) == []
  {
  }

  lemma PostNext(stats: map<StatId, Score>, effects: seq<Effect>, i: nat, quantity: int)
    requires i < |effects|
    ensures var p := Post(stats, effects[..i], quantity);
            var s := effects[i].statId;
            var after := Bump(ScoreOf(p.stats, s), effects[i].xp * quantity);
            var delta := after.xp - ScoreOf(p.stats, s).xp;
            && Post(stats, effects[..i + 1], quantity)
               == Posting(p.stats[s := after], p.total + delta, p.effects + [Effect(s, delta)])
            && PostReports(stats, effects[..i + 1], quantity)
               == PostReports(stats, effects[..i], quantity)
                  + [AppliedEffect(s, delta, ReportMove(ScoreOf(p.stats, s), after))]
  {
    hide Bump, ReportMove;
    assert effects[..i + 1][..i] == effects[..i];
  }

  lemma UnpostNothing(stats: map<StatId, Score>, effects: seq<Effect>)
    ensures Unpost(stats, effects[..0]) == stats
  {
  }

  lemma UnpostNext(stats: map<StatId, Score>, effects: seq<Effect>, i: nat)
    requires i < |effects|
    ensures Unpost(stats, effects[..i + 1]) == UnpostOne(Unpost(stats, effects[..i]), effects[i])
  {
    hide Bump;
    assert effects[..i + 1][..i] == effects[..i];
  }
}
