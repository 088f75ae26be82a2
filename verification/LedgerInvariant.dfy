/**
  What every step of the ledger keeps: valid scores, coherent logs, and the order between the
  three ledgers (live logs, global totals, stat rows) of every user.
 */
module LedgerInvariant {
  import opened Leveling
  import opened Scores
  import opened Ledger
  import opened Postings

  // ---------------------------------------------------------------- sums over live logs

  function ShareOn(row: ActivityLog, u: UserId, s: StatId): int {
    if row.user == u then AmountOn(row.effects, s) else 0
  }

  function ShareTotal(row: ActivityLog, u: UserId): int {
    if row.user == u then row.total else 0
  }

  /** What the user's live logs have applied to one stat. */
  function LiveOn(logs: seq<ActivityLog>, u: UserId, s: StatId): int {
    if logs == [] then 0
    else LiveOn(logs[..|logs| - 1], u, s) + ShareOn(logs[|logs| - 1], u, s)
  }

  /** The total xp the user's live logs have applied. */
  function LiveTotal(logs: seq<ActivityLog>, u: UserId): int {
    if logs == [] then 0
    else LiveTotal(logs[..|logs| - 1], u) + ShareTotal(logs[|logs| - 1], u)
  }

  lemma LiveAppend(logs: seq<ActivityLog>, row: ActivityLog, u: UserId, s: StatId)
    ensures LiveOn(logs + [row], u, s) == LiveOn(logs, u, s) + ShareOn(row, u, s)
    ensures LiveTotal(logs + [row], u) == LiveTotal(logs, u) + ShareTotal(row, u)
  {
    assert (logs + [row])[..|logs|] == logs;
  }

  lemma {:induction false} LiveWithout(logs: seq<ActivityLog>, i: nat, u: UserId, s: StatId)
    requires i < |logs|
    ensures LiveOn(WithoutLog(logs, i), u, s) == LiveOn(logs, u, s) - ShareOn(logs[i], u, s)
    ensures LiveTotal(WithoutLog(logs, i), u) == LiveTotal(logs, u) - ShareTotal(logs[i], u)
  {
    var n := |logs| - 1;
    if i == n {
      assert WithoutLog(logs, i) == logs[..n];
    } else {
      LiveWithout(logs[..n], i, u, s);
      assert WithoutLog(logs, i) == WithoutLog(logs[..n], i) + [logs[n]];
      LiveAppend(WithoutLog(logs[..n], i), logs[n], u, s);
    }
  }

  // ---------------------------------------------------------------- the invariant

  ghost predicate ValidAccount(a: Account) {
    && ValidScore(a.global)
    && forall s | s in a.stats :: ValidScore(a.stats[s])
  }

  /** A log row agrees with its effect rows, and everything it refers to exists. */
  ghost predicate Coherent(db: Db, row: ActivityLog) {
    && row.id < db.nextLogId
    && row.user in db.accounts
    && row.templateId in db.templates
    && Distinct(row.effects)
    && row.total == SumAmounts(row.effects)
    && Ids(row.effects) <= db.accounts[row.user].stats.Keys
  }

  ghost predicate LogsOk(db: Db) {
    && (forall i | 0 <= i < |db.logs| :: Coherent(db, db.logs[i]))
    && (forall i, j | 0 <= i < j < |db.logs| :: db.logs[i].id < db.logs[j].id)
  }

  ghost predicate TemplatesOk(db: Db) {
    forall t | t in db.templates :: ValidTemplate(db.templates[t], db.statIds)
  }

  ghost predicate AccountsOk(db: Db) {
    forall u | u in db.accounts :: ValidAccount(db.accounts[u])
  }

  /** Per stat, the row holds at least what the live logs applied to it. */
  ghost predicate StatCovers(db: Db, u: UserId, s: StatId) {
    LiveOn(db.logs, u, s) <= StatScore(db, u, s).xp
  }

  /** The global total lies between the live logs and the sum of the stat rows. */
  ghost predicate Sandwiched(db: Db, u: UserId) {
    Max(0, LiveTotal(db.logs, u)) <= GlobalScore(db, u).xp <= SumXp(AccountOf(db, u).stats)
  }

  ghost predicate Inv(db: Db) {
    && LogsOk(db)
    && TemplatesOk(db)
    && AccountsOk(db)
    && (forall u: UserId, s: StatId :: StatCovers(db, u, s))
    && (forall u: UserId :: Sandwiched(db, u))
  }

  lemma EmptyDbInv()
    ensures Inv(EMPTY_DB)
  {
  }

  lemma ScoresValid(db: Db, u: UserId, s: StatId)
    requires AccountsOk(db)
    ensures ValidScore(StatScore(db, u, s)) && ValidScore(GlobalScore(db, u))
  {
    NewScoreValid();
  }

  // ---------------------------------------------------------------- what one call does to scores

  /** The xp change a step asks of one stat row: none, or one request. */
  ghost function StatRequest(db: Db, op: Op, u: UserId, s: StatId): seq<int> {
    if u !in db.accounts then []
    else match op
      case Log(v, t, q, _) =>
        if v != u then []
        else (match EffectiveQuantity(db.templates, t, q)
              case Err(_) => []
              case Ok(quantity) =>
                var effects := db.templates[t].effects;
                if s in Ids(effects) then [AmountOn(effects, s) * quantity] else [])
      case Delete(v, id) =>
        if v != u then []
        else (match FindOwned(db.logs, u, id)
              case None => []
              case Some(i) =>
                if s in Ids(db.logs[i].effects) then [-AmountOn(db.logs[i].effects, s)] else [])
      case _ => []
  }

  /** The xp change a step asks of the global total. */
  ghost function GlobalRequest(db: Db, op: Op, u: UserId): seq<int> {
    if u !in db.accounts then []
    else match op
      case Log(v, t, q, _) =>
        if v != u then []
        else (match EffectiveQuantity(db.templates, t, q)
              case Err(_) => []
              case Ok(quantity) => [Post(db.accounts[u].stats, db.templates[t].effects, quantity).total])
      case Delete(v, id) =>
        if v != u then []
        else (match FindOwned(db.logs, u, id)
              case None => []
              case Some(i) => [-db.logs[i].total])
      case _ => []
  }

  lemma BumpOnce(score: Score, delta: int)
    ensures BumpAll(score, []) == score
    ensures BumpAll(score, [delta]) == Bump(score, delta)
  {
    assert [delta][..0] == [];
  }

  lemma LoggedScores(db: Db, u: UserId, t: TemplateId, quantity: int, now: int, v: UserId, s: StatId)
    requires u in db.accounts && t in db.templates && Distinct(db.templates[t].effects)
    ensures StatScore(Logged(db, u, t, quantity, now), v, s)
         == if v == u && s in Ids(db.templates[t].effects)
            then Bump(StatScore(db, u, s), AmountOn(db.templates[t].effects, s) * quantity)
            else StatScore(db, v, s)
  {
    PostPointwise(db.accounts[u].stats, db.templates[t].effects, quantity, s);
  }

  lemma DeletedScores(db: Db, u: UserId, i: nat, v: UserId, s: StatId)
    requires u in db.accounts && i < |db.logs| && Coherent(db, db.logs[i]) && db.logs[i].user == u
    ensures StatScore(Deleted(db, u, i), v, s)
         == if v == u && s in Ids(db.logs[i].effects)
            then Bump(StatScore(db, u, s), -AmountOn(db.logs[i].effects, s))
            else StatScore(db, v, s)
  {
    UnpostPointwise(db.accounts[u].stats, db.logs[i].effects, s);
  }

  lemma LogMovesStat(db: Db, op: Op, u: UserId, s: StatId)
    requires TemplatesOk(db) && op.Log?
    ensures StatScore(Step(db, op), u, s) == BumpAll(StatScore(db, u, s), StatRequest(db, op, u, s))
  {
    BumpOnce(StatScore(db, u, s), 0);
    var found := EffectiveQuantity(db.templates, op.templateId, op.quantity);
    if op.user in db.accounts && found.Ok? {
      var effects := db.templates[op.templateId].effects;
      assert ValidTemplate(db.templates[op.templateId], db.statIds);
      LoggedScores(db, op.user, op.templateId, found.value, op.now, u, s);
      BumpOnce(StatScore(db, u, s), AmountOn(effects, s) * found.value);
    }
  }

  lemma DeleteMovesStat(db: Db, op: Op, u: UserId, s: StatId)
    requires LogsOk(db) && op.Delete?
    ensures StatScore(Step(db, op), u, s) == BumpAll(StatScore(db, u, s), StatRequest(db, op, u, s))
  {
    BumpOnce(StatScore(db, u, s), 0);
    var found := FindOwned(db.logs, op.user, op.logId);
    if op.user in db.accounts && found.Some? {
      DeletedScores(db, op.user, found.value, u, s);
      BumpOnce(StatScore(db, u, s), -AmountOn(db.logs[found.value].effects, s));
    }
  }

  /** Each step moves each stat row by its request and by nothing else. */
  lemma StepMovesStat(db: Db, op: Op, u: UserId, s: StatId)
    requires LogsOk(db) && TemplatesOk(db)
    ensures StatScore(Step(db, op), u, s) == BumpAll(StatScore(db, u, s), StatRequest(db, op, u, s))
  {
    if op.Log? {
      LogMovesStat(db, op, u, s);
    } else if op.Delete? {
      DeleteMovesStat(db, op, u, s);
    } else {
      BumpOnce(StatScore(db, u, s), 0);
    }
  }

  lemma StepMovesGlobal(db: Db, op: Op, u: UserId)
    ensures GlobalScore(Step(db, op), u) == BumpAll(GlobalScore(db, u), GlobalRequest(db, op, u))
  {
    BumpOnce(GlobalScore(db, u), 0);
    if GlobalRequest(db, op, u) != [] {
      BumpOnce(GlobalScore(db, u), GlobalRequest(db, op, u)[0]);
    }
  }

  // ---------------------------------------------------------------- a log keeps the invariant

  lemma LoggedKeepsLogs(db: Db, u: UserId, t: TemplateId, quantity: int, now: int)
    requires LogsOk(db) && u in db.accounts && t in db.templates && Distinct(db.templates[t].effects)
    ensures LogsOk(Logged(db, u, t, quantity, now))
  {
    var after := Logged(db, u, t, quantity, now);
    var stats, effects := db.accounts[u].stats, db.templates[t].effects;
    PostShape(stats, effects, quantity);
    PostTelescopes(stats, effects, quantity, 0);
    var n := |db.logs|;
    forall i | 0 <= i < n + 1 ensures Coherent(after, after.logs[i]) {
      if i < n {
        assert Coherent(db, db.logs[i]);
      }
    }
  }

  lemma LoggedKeepsScores(db: Db, u: UserId, t: TemplateId, quantity: int, now: int)
    requires AccountsOk(db) && u in db.accounts && t in db.templates && Distinct(db.templates[t].effects)
    ensures AccountsOk(Logged(db, u, t, quantity, now))
  {
    var after := Logged(db, u, t, quantity, now);
    var stats, effects := db.accounts[u].stats, db.templates[t].effects;
    forall s | s in after.accounts[u].stats ensures ValidScore(after.accounts[u].stats[s]) {
      PostPointwise(stats, effects, quantity, s);
      ScoresValid(db, u, s);
      BumpValid(ScoreOf(stats, s), AmountOn(effects, s) * quantity);
    }
    BumpValid(db.accounts[u].global, Post(stats, effects, quantity).total);
  }

  lemma LoggedKeepsCover(
      db: Db, u: UserId, t: TemplateId, quantity: int, now: int, v: UserId, s: StatId)
    requires u in db.accounts && t in db.templates && Distinct(db.templates[t].effects)
    requires StatCovers(db, v, s)
    ensures StatCovers(Logged(db, u, t, quantity, now), v, s)
  {
    LiveAppend(db.logs, Logged(db, u, t, quantity, now).logs[|db.logs|], v, s);
    PostTelescopes(db.accounts[u].stats, db.templates[t].effects, quantity, s);
  }

  lemma LoggedKeepsSandwich(db: Db, u: UserId, t: TemplateId, quantity: int, now: int, v: UserId)
    requires AccountsOk(db) && u in db.accounts && t in db.templates && Distinct(db.templates[t].effects)
    requires Sandwiched(db, v)
    ensures Sandwiched(Logged(db, u, t, quantity, now), v)
  {
    var after := Logged(db, u, t, quantity, now);
    LiveAppend(db.logs, after.logs[|db.logs|], v, 0);
    PostTelescopes(db.accounts[u].stats, db.templates[t].effects, quantity, 0);
    LoggedKeepsScores(db, u, t, quantity, now);
    SumXpNonNegative(after.accounts[u].stats);
  }

  // ---------------------------------------------------------------- a delete keeps the invariant

  lemma DeletedKeepsLogs(db: Db, u: UserId, i: nat)
    requires LogsOk(db) && u in db.accounts && i < |db.logs|
    ensures LogsOk(Deleted(db, u, i))
  {
    var after := Deleted(db, u, i);
    UnpostKeys(db.accounts[u].stats, db.logs[i].effects);
    forall k | 0 <= k < |after.logs| ensures Coherent(after, after.logs[k]) {
      assert after.logs[k] == if k < i then db.logs[k] else db.logs[k + 1];
      assert Coherent(db, after.logs[k]);
    }
  }

  lemma DeletedKeepsScores(db: Db, u: UserId, i: nat)
    requires AccountsOk(db) && u in db.accounts && i < |db.logs| && Distinct(db.logs[i].effects)
    ensures AccountsOk(Deleted(db, u, i))
  {
    var after := Deleted(db, u, i);
    var stats, effects := db.accounts[u].stats, db.logs[i].effects;
    forall s | s in after.accounts[u].stats ensures ValidScore(after.accounts[u].stats[s]) {
      UnpostPointwise(stats, effects, s);
      ScoresValid(db, u, s);
      BumpValid(ScoreOf(stats, s), -AmountOn(effects, s));
    }
    BumpValid(db.accounts[u].global, -db.logs[i].total);
  }

  lemma DeletedKeepsCover(db: Db, u: UserId, i: nat, v: UserId, s: StatId)
    requires u in db.accounts && i < |db.logs| && Coherent(db, db.logs[i]) && db.logs[i].user == u
    requires StatCovers(db, v, s)
    ensures StatCovers(Deleted(db, u, i), v, s)
  {
    LiveWithout(db.logs, i, v, s);
    DeletedScores(db, u, i, v, s);
    if s !in Ids(db.logs[i].effects) {
      AmountOnAbsent(db.logs[i].effects, s);
    }
  }

  lemma DeletedKeepsSandwich(db: Db, u: UserId, i: nat, v: UserId)
    requires AccountsOk(db) && u in db.accounts && i < |db.logs|
    requires Coherent(db, db.logs[i]) && db.logs[i].user == u
    requires Sandwiched(db, v)
    ensures Sandwiched(Deleted(db, u, i), v)
  {
    var after := Deleted(db, u, i);
    LiveWithout(db.logs, i, v, 0);
    UnpostSum(db.accounts[u].stats, db.logs[i].effects);
    ShortfallSign(db.accounts[u].stats, db.logs[i].effects);
    DeletedKeepsScores(db, u, i);
    SumXpNonNegative(after.accounts[u].stats);
  }

  // ---------------------------------------------------------------- every step keeps the invariant

  lemma LogStepKeeps(db: Db, u: UserId, t: TemplateId, quantity: int, now: int)
    requires Inv(db) && u in db.accounts && t in db.templates
    ensures Inv(Logged(db, u, t, quantity, now))
  {
    var after := Logged(db, u, t, quantity, now);
    assert ValidTemplate(db.templates[t], db.statIds);
    LoggedKeepsLogs(db, u, t, quantity, now);
    LoggedKeepsScores(db, u, t, quantity, now);
    forall v: UserId, s: StatId ensures StatCovers(after, v, s) {
      LoggedKeepsCover(db, u, t, quantity, now, v, s);
    }
    forall v: UserId ensures Sandwiched(after, v) {
      LoggedKeepsSandwich(db, u, t, quantity, now, v);
    }
  }

  lemma DeleteStepKeeps(db: Db, u: UserId, i: nat)
    requires Inv(db) && u in db.accounts && i < |db.logs| && db.logs[i].user == u
    ensures Inv(Deleted(db, u, i))
  {
    var after := Deleted(db, u, i);
    DeletedKeepsLogs(db, u, i);
    DeletedKeepsScores(db, u, i);
    forall v: UserId, s: StatId ensures StatCovers(after, v, s) {
      DeletedKeepsCover(db, u, i, v, s);
    }
    forall v: UserId ensures Sandwiched(after, v) {
      DeletedKeepsSandwich(db, u, i, v);
    }
  }

  lemma {:induction false} NoLogsNoLive(logs: seq<ActivityLog>, u: UserId, s: StatId)
    requires forall i | 0 <= i < |logs| :: logs[i].user != u
    ensures LiveOn(logs, u, s) == 0 && LiveTotal(logs, u) == 0
  {
    if logs != [] {
      NoLogsNoLive(logs[..|logs| - 1], u, s);
    }
  }

  lemma RegisterStepKeeps(db: Db, u: UserId)
    requires Inv(db) && u !in db.accounts
    ensures Inv(Step(db, Register(u)))
  {
    var after := Step(db, Register(u));
    NewScoreValid();
    SumXpNonNegative(after.accounts[u].stats);
    forall i | 0 <= i < |db.logs| ensures Coherent(after, db.logs[i]) && db.logs[i].user != u {
      assert Coherent(db, db.logs[i]);
    }
    forall v: UserId, s: StatId ensures StatCovers(after, v, s) {
      NoLogsNoLive(db.logs, u, s);
      assert StatCovers(db, v, s);
    }
    forall v: UserId ensures Sandwiched(after, v) {
      NoLogsNoLive(db.logs, u, 0);
      assert Sandwiched(db, v);
    }
  }

  lemma TemplateStepKeeps(db: Db, op: Op)
    requires Inv(db) && (op.AddStat? || op.SaveTemplate? || op.DropTemplate?)
    ensures Inv(Step(db, op))
  {
    var after := Step(db, op);
    forall i | 0 <= i < |db.logs| ensures Coherent(after, db.logs[i]) {
      assert Coherent(db, db.logs[i]);
    }
    forall t | t in after.templates ensures ValidTemplate(after.templates[t], after.statIds) {
      if t in db.templates {
        assert ValidTemplate(db.templates[t], db.statIds);
      }
    }
    forall v: UserId, s: StatId ensures StatCovers(after, v, s) {
      assert StatCovers(db, v, s);
    }
    forall v: UserId ensures Sandwiched(after, v) {
      assert Sandwiched(db, v);
    }
  }

  lemma StepKeepsInv(db: Db, op: Op)
    requires Inv(db)
    ensures Inv(Step(db, op))
  {
    match op
    case Log(u, t, q, now) =>
      if u in db.accounts && EffectiveQuantity(db.templates, t, q).Ok? {
        LogStepKeeps(db, u, t, EffectiveQuantity(db.templates, t, q).value, now);
      }
    case Delete(u, id) =>
      if u in db.accounts && FindOwned(db.logs, u, id).Some? {
        DeleteStepKeeps(db, u, FindOwned(db.logs, u, id).value);
      }
    case Register(u) => if u !in db.accounts { RegisterStepKeeps(db, u); }
    case _ => TemplateStepKeeps(db, op);
  }

  /** Over any mix of calls, sign-ups and template edits: valid scores, coherent logs, and
      max(0, live logs) <= global xp <= sum of stat xp for every user. */
  lemma {:induction false} RunKeepsInv(db: Db, ops: seq<Op>)
    requires Inv(db)
    ensures Inv(Run(db, ops))
  {
    if ops != [] {
      RunKeepsInv(db, ops[..|ops| - 1]);
      StepKeepsInv(Run(db, ops[..|ops| - 1]), ops[|ops| - 1]);
    }
  }
}
