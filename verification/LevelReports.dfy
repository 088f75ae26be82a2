/**
  The level-up part of the log response, for a stat row and for the global total alike.
 */
module LevelReports {
  import opened Leveling
  import opened Scores
  import opened Ledger
  import opened Postings
  import opened LedgerInvariant
  import opened LedgerRuns

  /** A level-up is reported exactly when the new xp reaches the next threshold above the old
      level, and the k-th gained level is reported exactly when its threshold is reached. */
  lemma ReportCountsThresholds(before: Score, delta: int, k: int)
    requires ValidScore(before) && 1 <= k
    ensures var r := ReportMove(before, Bump(before, delta));
            && r.previousLevel == before.level && r.level == r.previousLevel + r.levelsGained
            && 0 <= r.levelsGained && (r.leveledUp <==> r.levelsGained > 0)
            && (k <= r.levelsGained <==> Threshold(before.level + k) <= r.xp)
  {
    LevelAdjoint(Bump(before, delta).xp, before.level + k);
  }

  /** The reported level never trails the level of the reported progress, and the two agree
      exactly when the xp still reaches the stored level. */
  lemma ReportLevelAgainstProgress(before: Score, delta: int)
    requires ValidScore(before)
    ensures var after := Bump(before, delta);
            var r := ReportMove(before, after);
            && ProgressOf(after.xp).level <= r.level
            && (r.level == ProgressOf(after.xp).level <==> Threshold(r.level) <= r.xp)
            && 0 <= r.xpIntoLevel < r.xpForNext
  {
    var after := Bump(before, delta);
    LevelAdjoint(after.xp, after.level);
    ProgressSplits(after.xp);
  }

  /** Every reported effect describes the move its row really made: the loop's i-th report is
      about the i-th effect's stat, and names the xp and level the row has after the call. */
  lemma {:induction false} ReportsDescribeRows(
      stats: map<StatId, Score>, effects: seq<Effect>, quantity: int, i: nat)
    requires Distinct(effects) && i < |effects|
    ensures |PostReports(stats, effects, quantity)| == |effects|
    ensures var r := PostReports(stats, effects, quantity)[i];
            var s := effects[i].statId;
            var before, after := ScoreOf(stats, s), ScoreOf(Post(stats, effects, quantity).stats, s);
            && r.statId == s && r.xpApplied == after.xp - before.xp
            && r.report == ReportMove(before, after)
  {
    hide Bump, ReportMove;
    var n := |effects| - 1;
    var init := effects[..n];
    if n > 0 {
      ReportsDescribeRows(stats, init, quantity, if i < n then i else 0);
    }
    PostPointwise(stats, init, quantity, effects[n].statId);
    if i < n {
      AmountAtIndex(init, i);
    }
  }

  // ---------------------------------------------------------------- the response

  /** The report tells where a score stood, where it stands, and how far it is from the next level. */
  ghost predicate Tells(report: Report, before: Score, after: Score) {
    && report.xp == after.xp && report.level == after.level
    && report.previousLevel == before.level
    && report.levelsGained == after.level - before.level
    && (report.leveledUp <==> before.level < after.level)
    && Threshold(LevelFromXp(after.xp)) + report.xpIntoLevel == after.xp
    && report.xpForNext == Gap(LevelFromXp(after.xp))
  }

  lemma ReportTells(before: Score, after: Score)
    requires 0 <= after.xp && before.level <= after.level
    ensures Tells(ReportMove(before, after), before, after)
  {
    ProgressSplits(after.xp);
  }

  lemma BumpRises(score: Score, delta: int)
    ensures 0 <= Bump(score, delta).xp && score.level <= Bump(score, delta).level
  {
  }

  /** The i-th report and the i-th effect row say the same of the i-th effect's stat. */
  lemma {:induction false} EffectIsTold(stats: map<StatId, Score>, effects: seq<Effect>, quantity: int, i: nat)
    requires Distinct(effects) && i < |effects|
    ensures var p := Post(stats, effects, quantity);
            var told := PostReports(stats, effects, quantity);
            && |told| == |p.effects| == |effects|
            && told[i].statId == p.effects[i].statId == effects[i].statId
            && told[i].xpApplied == p.effects[i].xp
            && Tells(told[i].report, ScoreOf(stats, effects[i].statId), ScoreOf(p.stats, effects[i].statId))
  {
    hide Bump, Post, PostReports, ReportMove, Tells, SumXp, SumAmounts, AmountOn;
    var s := effects[i].statId;
    ReportsDescribeRows(stats, effects, quantity, i);
    PostKeys(stats, effects, quantity);
    PostShape(stats, effects, quantity);
    PostTelescopes(stats, effects, quantity, s);
    AmountAtIndex(Post(stats, effects, quantity).effects, i);
    AmountAtIndex(effects, i);
    PostPointwise(stats, effects, quantity, s);
    BumpRises(ScoreOf(stats, s), AmountOn(effects, s) * quantity);
    ReportTells(ScoreOf(stats, s), ScoreOf(Post(stats, effects, quantity).stats, s));
  }

  /** The response of an accepted log is about the row it stored and the scores as they are now:
      its id and total are the stored row's, its effects are the row's, one by one and in order, and
      every report tells the stored score and the level before. */
  lemma {:induction false} ReplyTellsTheStep(db: Db, u: UserId, t: TemplateId, quantity: int, now: int, i: nat)
    requires Inv(db) && u in db.accounts && EffectiveQuantity(db.templates, t, quantity).Ok?
    ensures var after := Step(db, Log(u, t, quantity, now));
            var reply := LogReply(db, u, t, EffectiveQuantity(db.templates, t, quantity).value);
            |after.logs| == |db.logs| + 1 &&
            var row := after.logs[|db.logs|];
            && reply.logId == row.id && reply.total == row.total
            && FindOwned(after.logs, u, reply.logId) == Some(|db.logs|)
            && Tells(reply.global, GlobalScore(db, u), GlobalScore(after, u))
            && |reply.applied| == |row.effects| == |db.templates[t].effects|
            && (i < |row.effects| ==>
                  var s := row.effects[i].statId;
                  && s == reply.applied[i].statId == db.templates[t].effects[i].statId
                  && row.effects[i].xp == reply.applied[i].xpApplied
                  && Tells(reply.applied[i].report, StatScore(db, u, s), StatScore(after, u, s)))
  {
    hide Bump, Post, PostReports, ReportMove, Tells, Sandwiched, StatCovers, AccountsOk, LogsOk;
    var effective := EffectiveQuantity(db.templates, t, quantity).value;
    var stats, effects := db.accounts[u].stats, db.templates[t].effects;
    assert ValidTemplate(db.templates[t], db.statIds);
    var total := Post(stats, effects, effective).total;
    BumpRises(db.accounts[u].global, total);
    ReportTells(db.accounts[u].global, Bump(db.accounts[u].global, total));
    if i < |effects| {
      EffectIsTold(stats, effects, effective, i);
    }
    PostKeys(stats, effects, effective);
    AsManyReports(stats, effects, effective);
  }

  lemma {:induction false} AsManyReports(stats: map<StatId, Score>, effects: seq<Effect>, quantity: int)
    ensures |PostReports(stats, effects, quantity)| == |effects|
  {
    hide Post, Bump, ReportMove;
    if effects != [] {
      AsManyReports(stats, effects[..|effects| - 1], quantity);
    }
  }

  // ---------------------------------------------------------------- gains over a run

  function GainsOn(applied: seq<AppliedEffect>, s: StatId): int {
    if applied == [] then 0
    else
      var last := applied[|applied| - 1];
      GainsOn(applied[..|applied| - 1], s) + if last.statId == s then last.report.levelsGained else 0
  }

  lemma {:induction false} PostGainsTelescope(
      stats: map<StatId, Score>, effects: seq<Effect>, quantity: int, s: StatId)
    ensures GainsOn(PostReports(stats, effects, quantity), s)
         == ScoreOf(Post(stats, effects, quantity).stats, s).level - ScoreOf(stats, s).level
  {
    hide Bump;
    if effects != [] {
      var init := effects[..|effects| - 1];
      PostGainsTelescope(stats, init, quantity, s);
      assert PostReports(stats, effects, quantity)[..|PostReports(stats, init, quantity)|]
          == PostReports(stats, init, quantity);
    }
  }

  /** The levels a step's response reports as gained on one stat (only a log answers with any). */
  ghost function StepGains(db: Db, op: Op, u: UserId, s: StatId): int {
    if op.Log? && op.user == u && u in db.accounts && EffectiveQuantity(db.templates, op.templateId, op.quantity).Ok?
    then
      var quantity := EffectiveQuantity(db.templates, op.templateId, op.quantity).value;
      GainsOn(LogReply(db, u, op.templateId, quantity).applied, s)
    else 0
  }

  ghost function RunGains(db: Db, ops: seq<Op>, u: UserId, s: StatId): int {
    if ops == [] then 0
    else
      var init := ops[..|ops| - 1];
      RunGains(db, init, u, s) + StepGains(Run(db, init), ops[|ops| - 1], u, s)
  }

  lemma {:induction false} StepGainsTelescope(db: Db, op: Op, u: UserId, s: StatId)
    requires !op.Delete?
    ensures StepGains(db, op, u, s) == StatScore(Step(db, op), u, s).level - StatScore(db, u, s).level
  {
    hide Bump, Post, PostReports;
    if op.Log? && op.user == u && u in db.accounts && EffectiveQuantity(db.templates, op.templateId, op.quantity).Ok? {
      var quantity := EffectiveQuantity(db.templates, op.templateId, op.quantity).value;
      PostGainsTelescope(db.accounts[u].stats, db.templates[op.templateId].effects, quantity, s);
    }
  }

  /** Over a delete-free run the reported gains of a stat add up to its final minus its initial level. */
  lemma {:induction false} RunGainsTelescope(db: Db, ops: seq<Op>, u: UserId, s: StatId)
    requires forall i | 0 <= i < |ops| :: !ops[i].Delete?
    ensures RunGains(db, ops, u, s) == StatScore(Run(db, ops), u, s).level - StatScore(db, u, s).level
  {
    if ops != [] {
      var init := ops[..|ops| - 1];
      RunGainsTelescope(db, init, u, s);
      StepGainsTelescope(Run(db, init), ops[|ops| - 1], u, s);
    }
  }

  /** The global levels a step's response reports as gained. */
  ghost function StepGlobalGains(db: Db, op: Op, u: UserId): int {
    if op.Log? && op.user == u && u in db.accounts && EffectiveQuantity(db.templates, op.templateId, op.quantity).Ok?
    then
      var quantity := EffectiveQuantity(db.templates, op.templateId, op.quantity).value;
      LogReply(db, u, op.templateId, quantity).global.levelsGained
    else 0
  }

  ghost function RunGlobalGains(db: Db, ops: seq<Op>, u: UserId): int {
    if ops == [] then 0
    else
      var init := ops[..|ops| - 1];
      RunGlobalGains(db, init, u) + StepGlobalGains(Run(db, init), ops[|ops| - 1], u)
  }

  lemma StepGlobalGainsTelescope(db: Db, op: Op, u: UserId)
    requires !op.Delete?
    ensures StepGlobalGains(db, op, u) == GlobalScore(Step(db, op), u).level - GlobalScore(db, u).level
  {
    hide Bump, Post, PostReports;
  }

  /** The same for the global level. */
  lemma {:induction false} RunGlobalGainsTelescope(db: Db, ops: seq<Op>, u: UserId)
    requires forall i | 0 <= i < |ops| :: !ops[i].Delete?
    ensures RunGlobalGains(db, ops, u) == GlobalScore(Run(db, ops), u).level - GlobalScore(db, u).level
  {
    if ops != [] {
      var init := ops[..|ops| - 1];
      RunGlobalGainsTelescope(db, init, u);
      StepGlobalGainsTelescope(Run(db, init), ops[|ops| - 1], u);
    }
  }

  // ---------------------------------------------------------------- what deletes leave unreported

  /** The levels by which the xp that remains exceeds a stored level. */
  ghost function Excess(level: int, xp: int): nat {
    Max(0, LevelFromXp(xp) - level)
  }

  /** The stat levels a step adds without telling: a delete's, and nothing tells of those. */
  ghost function StepSilent(db: Db, op: Op, u: UserId, s: StatId): nat {
    var reverted := Reverted(db, op);
    if reverted.None? then 0
    else Excess(StatScore(db, u, s).level, StatScore(db, u, s).xp - ShareOn(db.logs[reverted.value], u, s))
  }

  ghost function StepGlobalSilent(db: Db, op: Op, u: UserId): nat {
    var reverted := Reverted(db, op);
    if reverted.None? then 0
    else Excess(GlobalScore(db, u).level, GlobalScore(db, u).xp - ShareTotal(db.logs[reverted.value], u))
  }

  ghost function RunSilent(db: Db, ops: seq<Op>, u: UserId, s: StatId): nat {
    if ops == [] then 0
    else
      var init := ops[..|ops| - 1];
      RunSilent(db, init, u, s) + StepSilent(Run(db, init), ops[|ops| - 1], u, s)
  }

  ghost function RunGlobalSilent(db: Db, ops: seq<Op>, u: UserId): nat {
    if ops == [] then 0
    else
      var init := ops[..|ops| - 1];
      RunGlobalSilent(db, init, u) + StepGlobalSilent(Run(db, init), ops[|ops| - 1], u)
  }

  lemma DeletedLevel(db: Db, v: UserId, i: nat, u: UserId, s: StatId)
    requires Inv(db) && v in db.accounts && i < |db.logs| && db.logs[i].user == v
    ensures var row, after := db.logs[i], Deleted(db, v, i);
            var stat, global := StatScore(db, u, s), GlobalScore(db, u);
            && StatScore(after, u, s).level == stat.level + Excess(stat.level, stat.xp - ShareOn(row, u, s))
            && GlobalScore(after, u).level == global.level + Excess(global.level, global.xp - ShareTotal(row, u))
  {
    hide Unpost, AmountOn, SumAmounts, Climb, Ids, StatCovers, Sandwiched;
    assert Coherent(db, db.logs[i]);
    DeletedScores(db, v, i, u, s);
    ScoresValid(db, u, s);
    if s !in Ids(db.logs[i].effects) {
      AmountOnAbsent(db.logs[i].effects, s);
    }
  }

  lemma {:induction false} StepLevels(db: Db, op: Op, u: UserId, s: StatId)
    requires Inv(db)
    ensures StatScore(Step(db, op), u, s).level
         == StatScore(db, u, s).level + StepGains(db, op, u, s) + StepSilent(db, op, u, s)
    ensures GlobalScore(Step(db, op), u).level
         == GlobalScore(db, u).level + StepGlobalGains(db, op, u) + StepGlobalSilent(db, op, u)
  {
    hide Inv, Excess, Post, PostReports, Unpost, Bump, StatScore, GlobalScore;
    if !op.Delete? {
      StepGainsTelescope(db, op, u, s);
      StepGlobalGainsTelescope(db, op, u);
    } else if Reverted(db, op).Some? {
      DeletedLevel(db, op.user, Reverted(db, op).value, u, s);
    }
  }

  /** Over every run, deletes included: a level's rise, stat or global, is what the responses
      reported plus what deletes added in silence. */
  lemma {:induction false} RunLevels(db: Db, ops: seq<Op>, u: UserId, s: StatId)
    requires Inv(db)
    ensures StatScore(Run(db, ops), u, s).level
         == StatScore(db, u, s).level + RunGains(db, ops, u, s) + RunSilent(db, ops, u, s)
    ensures GlobalScore(Run(db, ops), u).level
         == GlobalScore(db, u).level + RunGlobalGains(db, ops, u) + RunGlobalSilent(db, ops, u)
  {
    hide Inv, StepGains, StepSilent, StepGlobalGains, StepGlobalSilent, StatScore, GlobalScore;
    if ops != [] {
      var init := ops[..|ops| - 1];
      RunLevels(db, init, u, s);
      RunKeepsInv(db, init);
      StepLevels(Run(db, init), ops[|ops| - 1], u, s);
    }
  }

  /** A delete adds a level, stat or global, exactly when the xp left after taking the log's
      amount back out reaches the next threshold, which taking back a loss can do. */
  lemma DeleteRaisesSilently(db: Db, u: UserId, i: nat, s: StatId)
    requires Inv(db) && u in db.accounts && i < |db.logs| && db.logs[i].user == u
    ensures StatScore(db, u, s).level < StatScore(Deleted(db, u, i), u, s).level
            <==> Threshold(StatScore(db, u, s).level + 1) <= StatScore(db, u, s).xp - AmountOn(db.logs[i].effects, s)
    ensures GlobalScore(db, u).level < GlobalScore(Deleted(db, u, i), u).level
            <==> Threshold(GlobalScore(db, u).level + 1) <= GlobalScore(db, u).xp - db.logs[i].total
  {
    hide Unpost, AmountOn, SumAmounts, Climb, Ids, StatCovers, Sandwiched, Threshold;
    DeletedLevel(db, u, i, u, s);
    ScoresValid(db, u, s);
    ExcessIsThreshold(StatScore(db, u, s).level, StatScore(db, u, s).xp - AmountOn(db.logs[i].effects, s));
    ExcessIsThreshold(GlobalScore(db, u).level, GlobalScore(db, u).xp - db.logs[i].total);
  }

  lemma ExcessIsThreshold(level: int, xp: int)
    requires 1 <= level
    ensures 0 < Excess(level, xp) <==> Threshold(level + 1) <= xp
  {
    ThresholdStrict(1, level + 1);
    if 0 <= xp {
      LevelAdjoint(xp, level + 1);
    }
  }
}
