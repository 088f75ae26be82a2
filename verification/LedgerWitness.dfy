/**
  Concrete runs: one after which the global total is no longer the sum of the stat xp, a log whose
  immediate delete does not bring the global total back, and a delete that raises levels.
 */
module LedgerWitness {
  import opened Leveling
  import opened Scores
  import opened Ledger
  import opened Postings
  import opened LedgerRuns
  import opened LedgerReachable

  function Single(s: StatId, xp: int): Template {
    Template(true, Binary, 1, 1, [Effect(s, xp)])
  }

  function Row(id: LogId, t: TemplateId, s: StatId, applied: int): ActivityLog {
    ActivityLog(id, 7, t, 1, applied, [Effect(s, applied)], 0)
  }

  const TEMPLATES: map<TemplateId, Template> :=
    map[0 := Single(0, 10), 1 := Single(1, 10), 2 := Single(0, -10), 3 := Single(1, -10)]

  /** One user with two stats, everything at level 1, and four one-stat templates of 10 xp: a
      gain and a loss for each stat. */
  function Scene(xp0: int, xp1: int, globalXp: int, logs: seq<ActivityLog>, next: LogId): Db {
    SceneOf(TEMPLATES, map[0 := Score(xp0, 1), 1 := Score(xp1, 1)], globalXp, logs, next)
  }

  function SceneOf(
      templates: map<TemplateId, Template>, stats: map<StatId, Score>, globalXp: int,
      logs: seq<ActivityLog>, next: LogId): Db
  {
    Db({0, 1}, templates, map[7 := Account(stats, Score(globalXp, 1))], logs, next)
  }

  // ---------------------------------------------------------------- reaching the scene

  lemma ReachableTemplate(db: Db, t: TemplateId, s: StatId, xp: int)
    requires Reachable(db) && s in db.statIds
    ensures Reachable(db.(templates := db.templates[t := Single(s, xp)]))
  {
    var effects := [Effect(s, xp)];
    assert effects[..0] == [];
    assert Ids(effects) == {s};
    assert ValidTemplate(Single(s, xp), db.statIds);
    ReachableStep(db, SaveTemplate(t, Single(s, xp)));
  }

  lemma SceneReachable()
    ensures Reachable(Scene(0, 0, 0, [], 0))
  {
    assert Run(EMPTY_DB, []) == EMPTY_DB;
    ReachableStep(EMPTY_DB, AddStat(0));
    var d1 := EMPTY_DB.(statIds := {0});
    ReachableStep(d1, AddStat(1));
    var d2 := d1.(statIds := {0, 1});
    var d3 := d2.(accounts := Scene(0, 0, 0, [], 0).accounts);
    assert Step(d2, Register(7)) == d3 by {
      assert FreshAccount({0, 1}).stats == map[0 := NEW_SCORE, 1 := NEW_SCORE];
    }
    ReachableStep(d2, Register(7));
    ReachableTemplate(d3, 0, 0, 10);
    var d4 := d3.(templates := map[0 := Single(0, 10)]);
    ReachableTemplate(d4, 1, 1, 10);
    var d5 := d4.(templates := d4.templates[1 := Single(1, 10)]);
    ReachableTemplate(d5, 2, 0, -10);
    var d6 := d5.(templates := d5.templates[2 := Single(0, -10)]);
    ReachableTemplate(d6, 3, 1, -10);
    assert d6.(templates := d6.templates[3 := Single(1, -10)]) == Scene(0, 0, 0, [], 0);
  }

  // ---------------------------------------------------------------- single steps of the scene

  lemma SmallBump(xp: int, delta: int)
    requires Max(0, xp + delta) < 100
    ensures Bump(Score(xp, 1), delta) == Score(Max(0, xp + delta), 1)
  {
    ThresholdStrict(1, 2);
    LevelBand(Max(0, xp + delta), 1);
  }

  lemma LogOnScene(
      templates: map<TemplateId, Template>, stats: map<StatId, Score>, g: int, logs: seq<ActivityLog>,
      next: LogId, t: TemplateId, s: StatId, xp: int, delta: int)
    requires s in stats && stats[s] == Score(xp, 1) && t in templates && templates[t] == Single(s, delta)
    requires var applied := Max(0, xp + delta) - xp; xp + applied < 100 && Max(0, g + applied) < 100
    ensures var applied := Max(0, xp + delta) - xp;
            Step(SceneOf(templates, stats, g, logs, next), Log(7, t, 1, 0))
            == SceneOf(templates, stats[s := Score(xp + applied, 1)], Max(0, g + applied),
                       logs + [Row(next, t, s, applied)], next + 1)
  {
    hide LevelFromXp;
    var effects := templates[t].effects;
    var applied := Max(0, xp + delta) - xp;
    SmallBump(xp, delta);
    SmallBump(g, applied);
    assert effects[..0] == [];
    assert Post(stats, effects, 1) == PostOne(Posting(stats, 0, []), s, delta * 1);
    assert Post(stats, effects, 1) == Posting(stats[s := Score(xp + applied, 1)], applied, [Effect(s, applied)]);
  }

  lemma DeleteOnScene(
      templates: map<TemplateId, Template>, stats: map<StatId, Score>, g: int, logs: seq<ActivityLog>,
      next: LogId, i: nat, id: LogId, t: TemplateId, s: StatId, xp: int, applied: int)
    requires s in stats && stats[s] == Score(xp, 1)
    requires i < |logs| && logs[i] == Row(id, t, s, applied) && FindOwned(logs, 7, id) == Some(i)
    requires Max(0, xp - applied) < 100 && Max(0, g - applied) < 100
    ensures Step(SceneOf(templates, stats, g, logs, next), Delete(7, id))
         == SceneOf(templates, stats[s := Score(Max(0, xp - applied), 1)], Max(0, g - applied),
                    WithoutLog(logs, i), next)
  {
    hide LevelFromXp;
    var effects := logs[i].effects;
    SmallBump(xp, -applied);
    SmallBump(g, -applied);
    assert effects[..0] == [];
    assert Unpost(stats, effects) == UnpostOne(stats, Effect(s, applied));
  }

  lemma SceneBalance(xp0: int, xp1: int, g: int, logs: seq<ActivityLog>, next: LogId)
    ensures GlobalGap(Scene(xp0, xp1, g, logs, next), 7) == xp0 + xp1 - g
  {
    var stats := Scene(xp0, xp1, g, logs, next).accounts[7].stats;
    SumXpTakeOut(stats, 0);
    SumXpTakeOut(stats - {0}, 1);
    assert stats - {0} - {1} == map[];
  }

  // ---------------------------------------------------------------- the witnesses

  const THREE_LOGS := [Row(0, 0, 0, 10), Row(1, 1, 1, 10), Row(2, 2, 0, -10)]

  lemma SceneLog(
      xp0: int, xp1: int, g: int, logs: seq<ActivityLog>, next: LogId, t: TemplateId, s: StatId, delta: int)
    requires s < 2 && t in TEMPLATES && TEMPLATES[t] == Single(s, delta)
    requires 0 <= xp0 < 50 && 0 <= xp1 < 50 && 0 <= g < 50 && -10 <= delta <= 10
    requires Reachable(Scene(xp0, xp1, g, logs, next))
    ensures var xp := if s == 0 then xp0 else xp1;
            var applied := Max(0, xp + delta) - xp;
            var after := Scene(if s == 0 then xp0 + applied else xp0, if s == 0 then xp1 else xp1 + applied,
                               Max(0, g + applied), logs + [Row(next, t, s, applied)], next + 1);
            after == Step(Scene(xp0, xp1, g, logs, next), Log(7, t, 1, 0)) && Reachable(after)
  {
    hide Step, Run, Reachable;
    var stats := map[0 := Score(xp0, 1), 1 := Score(xp1, 1)];
    var xp := if s == 0 then xp0 else xp1;
    var moved := Score(Max(0, xp + delta), 1);
    LogOnScene(TEMPLATES, stats, g, logs, next, t, s, xp, delta);
    if s == 0 {
      assert stats[0 := moved] == map[0 := moved, 1 := Score(xp1, 1)];
    } else {
      assert stats[1 := moved] == map[0 := Score(xp0, 1), 1 := moved];
    }
    ReachableStep(Scene(xp0, xp1, g, logs, next), Log(7, t, 1, 0));
  }

  /** Gain 10 on each stat, then lose the first gain again: stats 0 and 10, global 10. */
  lemma BeforeDelete()
    ensures Reachable(Scene(0, 10, 10, THREE_LOGS, 3))
  {
    hide Step, Run, Reachable;
    SceneReachable();
    SceneLog(0, 0, 0, [], 0, 0, 0, 10);
    var one := [] + [Row(0, 0, 0, 10)];
    SceneLog(10, 0, 10, one, 1, 1, 1, 10);
    var two := one + [Row(1, 1, 1, 10)];
    SceneLog(10, 10, 20, two, 2, 2, 0, -10);
    assert two + [Row(2, 2, 0, -10)] == THREE_LOGS;
  }

  /** Deleting the first of those logs takes 10 off the global total but nothing off stat 0, which
      holds nothing: a reachable, balanced state is left unbalanced, global 0 against stats 10. */
  lemma GlobalFallsBehind()
    ensures var before := Scene(0, 10, 10, THREE_LOGS, 3);
            var after := Step(before, Delete(7, 0));
            && Reachable(before) && Balanced(before, 7)
            && after == Scene(0, 10, 0, THREE_LOGS[1..], 3) && GlobalGap(after, 7) == 10
  {
    BeforeDelete();
    SceneBalance(0, 10, 10, THREE_LOGS, 3);
    SceneBalance(0, 10, 0, THREE_LOGS[1..], 3);
    assert FindOwned(THREE_LOGS, 7, 0) == Some(0) by {
      assert THREE_LOGS[..2][..1] == [Row(0, 0, 0, 10)];
    }
    var stats := map[0 := Score(0, 1), 1 := Score(10, 1)];
    DeleteOnScene(TEMPLATES, stats, 10, THREE_LOGS, 3, 0, 0, 0, 0, 0, 10);
    assert stats[0 := Score(0, 1)] == stats;
    assert WithoutLog(THREE_LOGS, 0) == THREE_LOGS[1..];
  }

  lemma LastFound(logs: seq<ActivityLog>, row: ActivityLog)
    ensures FindOwned(logs + [row], row.user, row.id) == Some(|logs|)
    ensures WithoutLog(logs + [row], |logs|) == logs
  {
  }

  /** From there, losing 10 on stat 1 hits the global floor, and deleting that very log leaves the
      global total at 10 where it was 0. */
  lemma UndoOvershoots()
    ensures var before := Scene(0, 10, 0, THREE_LOGS[1..], 3);
            var logged := Step(before, Log(7, 3, 1, 0));
            var undone := Step(logged, Delete(7, 3));
            && Reachable(before)
            && undone == Scene(0, 10, 10, THREE_LOGS[1..], 4)
            && GlobalScore(before, 7).xp == 0 && GlobalScore(undone, 7).xp == 10
  {
    hide Step, Run, Reachable;
    GlobalFallsBehind();
    ReachableStep(Scene(0, 10, 10, THREE_LOGS, 3), Delete(7, 0));
    var logs := THREE_LOGS[1..];
    SceneLog(0, 10, 0, logs, 3, 3, 1, -10);
    LastFound(logs, Row(3, 3, 1, -10));
    var stats := map[0 := Score(0, 1), 1 := Score(0, 1)];
    DeleteOnScene(TEMPLATES, stats, 0, logs + [Row(3, 3, 1, -10)], 4, |logs|, 3, 3, 1, 0, -10);
    assert stats[1 := Score(10, 1)] == map[0 := Score(0, 1), 1 := Score(10, 1)];
  }

  // ---------------------------------------------------------------- a level-up nobody is told of

  const STEEP: map<TemplateId, Template> := TEMPLATES[0 := Single(0, 60)][2 := Single(0, -50)]

  const STEEP_LOGS := [Row(0, 0, 0, 60), Row(1, 2, 0, -50), Row(2, 0, 0, 60)]

  function SteepScene(xp: int, logs: seq<ActivityLog>, next: LogId): Db {
    SceneOf(STEEP, map[0 := Score(xp, 1), 1 := Score(0, 1)], xp, logs, next)
  }

  lemma SteepReachable()
    ensures Reachable(SteepScene(0, [], 0))
  {
    hide Run, Reachable, Step;
    SceneReachable();
    ReachableTemplate(Scene(0, 0, 0, [], 0), 0, 0, 60);
    var steeper := Scene(0, 0, 0, [], 0).(templates := TEMPLATES[0 := Single(0, 60)]);
    ReachableTemplate(steeper, 2, 0, -50);
  }

  lemma SteepLog(xp: int, logs: seq<ActivityLog>, next: LogId, t: TemplateId, delta: int)
    requires t in STEEP && STEEP[t] == Single(0, delta)
    requires 0 <= xp && 0 <= xp + delta < 100 && Reachable(SteepScene(xp, logs, next))
    ensures Reachable(SteepScene(xp + delta, logs + [Row(next, t, 0, delta)], next + 1))
  {
    hide Step, Run, Reachable;
    var stats := map[0 := Score(xp, 1), 1 := Score(0, 1)];
    LogOnScene(STEEP, stats, xp, logs, next, t, 0, xp, delta);
    assert stats[0 := Score(xp + delta, 1)] == map[0 := Score(xp + delta, 1), 1 := Score(0, 1)];
    ReachableStep(SteepScene(xp, logs, next), Log(7, t, 1, 0));
  }

  lemma LevelOf120()
    ensures LevelFromXp(120) == 2
  {
    PowersAreProducts(1);
    PowersAreProducts(2);
    PowersAreProducts(121);
    LevelIsLargestCube(120, 2);
    LevelIsLargestCube(120, 3);
  }

  /** Taking a recorded loss of 50 back out of 70. */
  lemma SteepDelete(stats: map<StatId, Score>, effects: seq<Effect>)
    requires 0 in stats && stats[0] == Score(70, 1) && effects == [Effect(0, -50)]
    ensures Unpost(stats, effects) == stats[0 := Score(120, 2)]
    ensures Bump(Score(70, 1), 50) == Score(120, 2)
  {
    hide LevelFromXp;
    LevelOf120();
    assert effects[..0] == [];
    assert Unpost(stats, effects) == UnpostOne(stats, Effect(0, -50));
  }

  lemma SecondFound()
    ensures FindOwned(STEEP_LOGS, 7, 1) == Some(1)
  {
    assert STEEP_LOGS[..2][1] == Row(1, 2, 0, -50);
  }

  /** Gain 60, lose 50, gain 60: xp 70, the peak so far, is level 1.  Deleting the loss, which
      reports nothing, puts stat 0 and the global total at xp 120 and level 2. */
  lemma DeleteLevelsUp()
    ensures var before := SteepScene(70, STEEP_LOGS, 3);
            var after := Step(before, Delete(7, 1));
            && Reachable(before)
            && StatScore(before, 7, 0) == GlobalScore(before, 7) == Score(70, 1)
            && StatScore(after, 7, 0) == GlobalScore(after, 7) == Score(120, 2)
  {
    hide Reachable, Unpost, Bump, FindOwned;
    SteepRun();
    SecondFound();
    SteepDelete(SteepScene(70, STEEP_LOGS, 3).accounts[7].stats, STEEP_LOGS[1].effects);
  }

  lemma SteepRun()
    ensures Reachable(SteepScene(70, STEEP_LOGS, 3))
  {
    hide Reachable;
    SteepReachable();
    SteepLog(0, [], 0, 0, 60);
    var one := [] + [Row(0, 0, 0, 60)];
    SteepLog(60, one, 1, 2, -50);
    var two := one + [Row(1, 2, 0, -50)];
    SteepLog(10, two, 2, 0, 60);
    assert two + [Row(2, 0, 0, 60)] == STEEP_LOGS;
  }
}
