/**
  log_activity and delete_log as they run: row by row, over the tables of one database session.
  Each call is proved to be one step of the ledger.
 */
module ActivityService {
  import opened Leveling
  import opened Scores
  import opened Ledger
  import opened Postings

  function WithScore(a: Account, s: StatId, score: Score): Account {
    a.(stats := a.stats[s := score])
  }

  class Service {
    var statIds: set<StatId>
    var templates: map<TemplateId, Template>
    var accounts: map<UserId, Account>
    var logs: seq<ActivityLog>
    var nextLogId: LogId

    ghost function Snapshot(): Db
      reads this
    {
      Db(statIds, templates, accounts, logs, nextLogId)
    }

    constructor ()
      ensures Snapshot() == EMPTY_DB
    {
      statIds, templates, accounts, logs, nextLogId := {}, map[], map[], [], 0;
    }

    // -------------------------------------------------------------- rows

    function GetForUpdate(user: UserId, s: StatId): Option<Score>
      requires user in accounts
      reads this
    {
      if s in accounts[user].stats then Some(accounts[user].stats[s]) else None
    }

    method SaveScore(user: UserId, s: StatId, score: Score)
      requires user in accounts
      modifies this`accounts
      ensures accounts == old(accounts)[user := WithScore(old(accounts)[user], s, score)]
    {
      accounts := accounts[user := WithScore(accounts[user], s, score)];
    }

    method SaveGlobal(user: UserId, score: Score)
      requires user in accounts
      modifies this`accounts
      ensures accounts == old(accounts)[user := Account(old(accounts)[user].stats, score)]
    {
      accounts := accounts[user := accounts[user].(global := score)];
    }

    /** New xp floored at 0, level searched and ratcheted. */
    method Move(before: Score, rawDelta: int) returns (after: Score)
      ensures after == Bump(before, rawDelta)
    {
      var xp := Max(0, before.xp + rawDelta);
      var computed, _ := FindLevel(xp);
      after := Score(xp, Max(before.level, computed));
    }

    // -------------------------------------------------------------- logging

    method LogActivity(user: UserId, templateId: TemplateId, quantity: int, now: int)
      returns (r: Result<LogResponse>)
      requires user in accounts
      modifies this`accounts, this`logs, this`nextLogId
      ensures Snapshot() == Step(old(Snapshot()), Log(user, templateId, quantity, now))
      ensures match EffectiveQuantity(templates, templateId, quantity)
              case Err(e) => r == Err(e)
              case Ok(effective) => r == Ok(LogReply(old(Snapshot()), user, templateId, effective))
    {
      hide Bump, Post, PostReports, ReportMove;
      if templateId !in templates {
        return Err(TemplateNotFound);
      }
      var template := templates[templateId];
      if !template.enabled {
        return Err(TemplateDisabled);
      }
      var effective := 1;
      if !template.inputType.Binary? {
        if !(template.minQuantity <= quantity <= template.maxQuantity) {
          return Err(QuantityOutOfRange);
        }
        effective := quantity;
      }

      var total, applied, effectsForLog := ApplyEffects(user, template.effects, effective);
      var oldGlobal := accounts[user].global;
      var newGlobal := Move(oldGlobal, total);
      SaveGlobal(user, newGlobal);

      var id := nextLogId;
      logs := logs + [ActivityLog(id, user, templateId, effective, total, effectsForLog, now)];
      nextLogId := nextLogId + 1;
      r := Ok(LogResponse(id, total, applied, ReportMove(oldGlobal, newGlobal)));
      assert Snapshot() == Logged(old(Snapshot()), user, templateId, effective, now);
    }

    /** One turn of the loop over effects: lock or create the row, floor, ratchet, report. */
    method ApplyEffect(user: UserId, s: StatId, rawDelta: int) returns (applied: AppliedEffect)
      requires user in accounts
      modifies this`accounts
      ensures var before := ScoreOf(old(accounts)[user].stats, s);
              var after := Bump(before, rawDelta);
              && accounts == old(accounts)[user := WithScore(old(accounts)[user], s, after)]
              && applied == AppliedEffect(s, after.xp - before.xp, ReportMove(before, after))
    {
      hide Bump, ReportMove;
      var found := GetForUpdate(user, s);
      var before := if found.Some? then found.value else NEW_SCORE;
      var after := Move(before, rawDelta);
      SaveScore(user, s, after);
      applied := AppliedEffect(s, after.xp - before.xp, ReportMove(before, after));
    }

    method ApplyEffects(user: UserId, effects: seq<Effect>, quantity: int)
      returns (total: int, applied: seq<AppliedEffect>, effectsForLog: seq<Effect>)
      requires user in accounts
      modifies this`accounts
      ensures var before := old(accounts)[user];
              var p := Post(before.stats, effects, quantity);
              && accounts == old(accounts)[user := Account(p.stats, before.global)]
              && total == p.total && effectsForLog == p.effects
              && applied == PostReports(before.stats, effects, quantity)
    {
      hide Bump, Post, PostReports, ReportMove;
      total, applied, effectsForLog := 0, [], [];
      ghost var before := accounts[user];
      PostNothing(before.stats, effects, quantity);
      var i := 0;
      while i < |effects|
        invariant 0 <= i <= |effects|
        invariant accounts
               == old(accounts)[user := Account(Post(before.stats, effects[..i], quantity).stats, before.global)]
        invariant total == Post(before.stats, effects[..i], quantity).total
        invariant effectsForLog == Post(before.stats, effects[..i], quantity).effects
        invariant applied == PostReports(before.stats, effects[..i], quantity)
      {
        PostNext(before.stats, effects, i, quantity);
        var effect := ApplyEffect(user, effects[i].statId, effects[i].xp * quantity);
        total := total + effect.xpApplied;
        effectsForLog := effectsForLog + [Effect(effect.statId, effect.xpApplied)];
        applied := applied + [effect];
        i := i + 1;
      }
      assert effects[..i] == effects;
    }

    // -------------------------------------------------------------- deleting

    method DeleteLog(user: UserId, logId: LogId) returns (r: Result<()>)
      requires user in accounts
      modifies this`accounts, this`logs
      ensures Snapshot() == Step(old(Snapshot()), Delete(user, logId))
      ensures r == if FindOwned(old(logs), user, logId).Some? then Ok(()) else Err(LogNotFound)
    {
      var found := FindOwned(logs, user, logId);
      if found.None? {
        return Err(LogNotFound);
      }
      var row := logs[found.value];
      RevertEffects(user, row.effects);

      var newGlobal := Move(accounts[user].global, -row.total);
      SaveGlobal(user, newGlobal);
      logs := WithoutLog(logs, found.value);
      r := Ok(());
    }

    /** The loop over a log's effect rows; a stat whose row is missing is skipped. */
    method RevertEffects(user: UserId, effects: seq<Effect>)
      requires user in accounts
      modifies this`accounts
      ensures var before := old(accounts)[user];
              accounts == old(accounts)[user := Account(Unpost(before.stats, effects), before.global)]
    {
      hide Bump, Unpost;
      ghost var before := accounts[user];
      UnpostNothing(before.stats, effects);
      var i := 0;
      while i < |effects|
        invariant 0 <= i <= |effects|
        invariant accounts == old(accounts)[user := Account(Unpost(before.stats, effects[..i]), before.global)]
      {
        UnpostNext(before.stats, effects, i);
        var s := effects[i].statId;
        var found := GetForUpdate(user, s);
        if found.None? {
          i := i + 1;
          continue;
        }
        var after := Move(found.value, -effects[i].xp);
        SaveScore(user, s, after);
        i := i + 1;
      }
      assert effects[..i] == effects;
    }

    // -------------------------------------------------------------- sign-up

    /** One new row per existing stat (initialize_user_stats). */
    method Register(user: UserId)
      requires user !in accounts
      modifies this`accounts
      ensures Snapshot() == Step(old(Snapshot()), Ledger.Register(user))
    {
      accounts := accounts[user := FreshAccount(statIds)];
    }
  }
}
