/**
  Where the three ledgers of a user, stat rows, global total and live logs, agree to the point.
 */
module LedgerExact {
  import opened Scores
  import opened Ledger
  import opened Postings
  import opened LedgerInvariant
  import opened LedgerRuns

  ghost predicate ExactFor(db: Db, u: UserId, s: StatId) {
    && StatScore(db, u, s).xp == LiveOn(db.logs, u, s)
    && GlobalScore(db, u).xp == LiveTotal(db.logs, u)
    && Balanced(db, u)
  }

  /** The three ledgers of this user agree to the point. */
  ghost predicate ExactOf(db: Db, u: UserId) {
    forall s: StatId :: ExactFor(db, u, s)
  }

  // ---------------------------------------------------------------- stat rows decide

  /** These rows with the amounts added in, levels aside. */
  ghost function Plus(stats: map<StatId, Score>, effects: seq<Effect>): map<StatId, Score> {
    map s | s in stats :: Score(stats[s].xp + AmountOn(effects, s), 1)
  }

  lemma {:induction false} SumPlus(stats: map<StatId, Score>, effects: seq<Effect>)
    requires Ids(effects) <= stats.Keys
    ensures SumXp(Plus(stats, effects)) == SumXp(stats) + SumAmounts(effects)
  {
    if effects == [] {
      SumXpByXp(Plus(stats, effects), stats);
    } else {
      var init, last := effects[..|effects| - 1], effects[|effects| - 1];
      SumPlus(stats, init);
      var before := Plus(stats, init);
      SumXpUpdate(before, last.statId, Score(before[last.statId].xp + last.xp, 1));
      assert Plus(stats, effects) == before[last.statId := Score(before[last.statId].xp + last.xp, 1)];
    }
  }

  /** Only the xp of the rows enters their sum. */
  lemma {:induction false} SumXpByXp(a: map<StatId, Score>, b: map<StatId, Score>)
    requires a.Keys == b.Keys && forall s | s in a :: a[s].xp == b[s].xp
    ensures SumXp(a) == SumXp(b)
    decreases |a|
  {
    if a != map[] {
      var s :| s in a;
      SumXpTakeOut(a, s);
      SumXpTakeOut(b, s);
      assert (a - {s}).Keys == a.Keys - {s} && (b - {s}).Keys == b.Keys - {s};
      assert |a.Keys - {s}| < |a.Keys|;
      SumXpByXp(a - {s}, b - {s});
    } else {
      assert a.Keys == {} && b == map[];
    }
  }

  /** One row per stat, holding what the live logs applied. */
  ghost function LiveRows(logs: seq<ActivityLog>, u: UserId, ids: set<StatId>): map<StatId, Score> {
    map s | s in ids :: Score(LiveOn(logs, u, s), 1)
  }

  lemma {:induction false} LiveRowsSum(logs: seq<ActivityLog>, u: UserId, ids: set<StatId>)
    requires forall i | 0 <= i < |logs| && logs[i].user == u ::
               Ids(logs[i].effects) <= ids && logs[i].total == SumAmounts(logs[i].effects)
    ensures SumXp(LiveRows(logs, u, ids)) == LiveTotal(logs, u)
  {
    hide SumXp, SumAmounts, AmountOn, Ids;
    if logs == [] {
      SumXpNonNegative(LiveRows(logs, u, ids));
    } else {
      var init, last := logs[..|logs| - 1], logs[|logs| - 1];
      LiveRowsSum(init, u, ids);
      if last.user == u {
        SumPlus(LiveRows(init, u, ids), last.effects);
        assert LiveRows(logs, u, ids) == Plus(LiveRows(init, u, ids), last.effects);
      } else {
        assert LiveRows(logs, u, ids) == LiveRows(init, u, ids);
      }
    }
  }

  ghost predicate NoDrift(db: Db, u: UserId) {
    forall s: StatId :: StatDrift(db, u, s) == 0
  }

  /** If every stat row of a user is what the live logs applied, the global total has no room in
      its sandwich: it is the live total and the sum of the rows. */
  lemma StatsDecide(db: Db, u: UserId)
    requires Inv(db)
    ensures ExactOf(db, u) <==> NoDrift(db, u)
  {
    if NoDrift(db, u) {
      RowsAreLive(db, u);
      forall s: StatId ensures ExactFor(db, u, s) {
        assert StatDrift(db, u, s) == 0;
        assert Sandwiched(db, u);
      }
    } else {
      var s: StatId :| StatDrift(db, u, s) != 0;
      assert !ExactFor(db, u, s);
    }
  }

  lemma RowsAreLive(db: Db, u: UserId)
    requires Inv(db) && NoDrift(db, u)
    ensures SumXp(AccountOf(db, u).stats) == LiveTotal(db.logs, u)
  {
    hide LiveOn, LiveTotal, SumXp, SumAmounts;
    var stats := AccountOf(db, u).stats;
    forall i | 0 <= i < |db.logs| && db.logs[i].user == u
      ensures Ids(db.logs[i].effects) <= stats.Keys && db.logs[i].total == SumAmounts(db.logs[i].effects)
    {
      assert Coherent(db, db.logs[i]);
    }
    LiveRowsSum(db.logs, u, stats.Keys);
    forall s | s in stats ensures stats[s].xp == LiveOn(db.logs, u, s) {
      assert StatDrift(db, u, s) == 0;
    }
    SumXpByXp(LiveRows(db.logs, u, stats.Keys), stats);
  }

  // ---------------------------------------------------------------- when a run stays exact

  /** No delete of the run took more out of a stat row of the user than the row held. */
  ghost predicate NothingFloored(db: Db, ops: seq<Op>, u: UserId) {
    forall s: StatId :: AllFlooredOff(db, ops, u, s) == 0
  }

  /** From exact ledgers a run leads to exact ledgers if and only if no delete of it took more
      out of a stat row than the row held. */
  lemma {:induction false} ExactIff(db: Db, ops: seq<Op>, u: UserId)
    requires Inv(db) && ExactOf(db, u)
    ensures ExactOf(Run(db, ops), u) <==> NothingFloored(db, ops, u)
  {
    hide StatDrift, AllFlooredOff, Inv, ExactOf;
    RunKeepsInv(db, ops);
    StatsDecide(db, u);
    StatsDecide(Run(db, ops), u);
    forall s: StatId ensures StatDrift(Run(db, ops), u, s) == AllFlooredOff(db, ops, u, s) {
      RunDrift(db, ops, u, s);
      assert StatDrift(db, u, s) == 0;
    }
    if NothingFloored(db, ops, u) {
      forall s: StatId ensures StatDrift(Run(db, ops), u, s) == 0 {
        assert AllFlooredOff(db, ops, u, s) == 0;
      }
    } else {
      var s: StatId :| AllFlooredOff(db, ops, u, s) != 0;
      assert StatDrift(Run(db, ops), u, s) != 0;
    }
  }

  ghost predicate Gainful(effects: seq<Effect>) {
    forall i | 0 <= i < |effects| :: 0 <= effects[i].xp
  }

  /** None of this user's live logs records a loss.  Templates may hold losses, and so may other
      users' logs. */
  ghost predicate LogsGain(db: Db, u: UserId) {
    forall i | 0 <= i < |db.logs| && db.logs[i].user == u :: Gainful(db.logs[i].effects)
  }

  ghost predicate AlwaysGains(db: Db, ops: seq<Op>, u: UserId) {
    forall j | 0 <= j < |ops| :: LogsGain(Run(db, ops[..j]), u)
  }

  lemma {:induction false} GainfulAmounts(effects: seq<Effect>, s: StatId)
    requires Gainful(effects)
    ensures 0 <= AmountOn(effects, s) && 0 <= SumAmounts(effects)
  {
    if effects != [] {
      GainfulAmounts(effects[..|effects| - 1], s);
    }
  }

  lemma {:induction false} GainfulLive(logs: seq<ActivityLog>, u: UserId, s: StatId)
    requires forall i | 0 <= i < |logs| && logs[i].user == u :: Gainful(logs[i].effects)
    ensures 0 <= LiveOn(logs, u, s)
  {
    if logs != [] {
      GainfulLive(logs[..|logs| - 1], u, s);
      if logs[|logs| - 1].user == u {
        GainfulAmounts(logs[|logs| - 1].effects, s);
      }
    }
  }

  /** A row holds every amount of every live log if none of the user's logs records a loss: the
      others leave it at least that much. */
  lemma GainsAreHeld(db: Db, i: nat, u: UserId, s: StatId)
    requires Inv(db) && LogsGain(db, u) && i < |db.logs|
    ensures ShareOn(db.logs[i], u, s) <= StatScore(db, u, s).xp
  {
    hide LiveOn;
    var rest := WithoutLog(db.logs, i);
    forall k | 0 <= k < |rest| && rest[k].user == u ensures Gainful(rest[k].effects) {
      assert rest[k] == if k < i then db.logs[k] else db.logs[k + 1];
    }
    GainfulLive(rest, u, s);
    LiveWithout(db.logs, i, u, s);
    assert StatCovers(db, u, s);
  }

  lemma {:induction false} GainsFloorNothing(db: Db, ops: seq<Op>, u: UserId, s: StatId)
    requires Inv(db) && AlwaysGains(db, ops, u)
    ensures AllFlooredOff(db, ops, u, s) == 0
  {
    hide Inv, LogsGain, StatScore;
    if ops != [] {
      var n := |ops| - 1;
      assert forall j | 0 <= j < n :: ops[..n][..j] == ops[..j];
      GainsFloorNothing(db, ops[..n], u, s);
      RunKeepsInv(db, ops[..n]);
      var before := Run(db, ops[..n]);
      assert LogsGain(before, u);
      if Reverted(before, ops[n]).Some? {
        GainsAreHeld(before, Reverted(before, ops[n]).value, u, s);
      }
    }
  }

  /** As long as none of a user's live logs records a loss, the user's stat rows are exactly what
      the live logs applied and the global total is exactly the sum of the stat rows, whatever is
      deleted in whatever order and whatever templates and other users do. */
  lemma {:induction false} GainsStayExact(db: Db, ops: seq<Op>, u: UserId)
    requires Inv(db) && ExactOf(db, u) && AlwaysGains(db, ops, u)
    ensures ExactOf(Run(db, ops), u)
  {
    ExactIff(db, ops, u);
    forall s: StatId ensures AllFlooredOff(db, ops, u, s) == 0 {
      GainsFloorNothing(db, ops, u, s);
    }
  }

  // ---------------------------------------------------------------- catalogues without losses

  /** All templates, now and as saved later, only ever give xp. */
  ghost predicate GainfulTemplates(db: Db) {
    forall t | t in db.templates :: Gainful(db.templates[t].effects)
  }

  ghost predicate GainfulOp(op: Op) {
    op.SaveTemplate? ==> Gainful(op.template.effects)
  }

  /** No template and no live log of anyone takes xp, and the ledgers of every user agree. */
  ghost predicate Exact(db: Db) {
    && OnlyGains(db)
    && (forall u: UserId :: ExactOf(db, u))
  }

  ghost predicate OnlyGains(db: Db) {
    GainfulTemplates(db) && forall u: UserId :: LogsGain(db, u)
  }

  /** Gains are recorded in full: no floor fires. */
  lemma GainfulPost(stats: map<StatId, Score>, effects: seq<Effect>, quantity: nat)
    requires Distinct(effects) && Gainful(effects) && forall s | s in stats :: 0 <= stats[s].xp
    ensures Gainful(Post(stats, effects, quantity).effects)
  {
    hide Post, SumXp, SumAmounts, AmountOn, Ids;
    var recorded := Post(stats, effects, quantity).effects;
    PostShape(stats, effects, quantity);
    PostKeys(stats, effects, quantity);
    forall i | 0 <= i < |recorded| ensures 0 <= recorded[i].xp {
      var s := recorded[i].statId;
      AmountAtIndex(recorded, i);
      PostTelescopes(stats, effects, quantity, s);
      PostPointwise(stats, effects, quantity, s);
      GainfulAmounts(effects, s);
      Scaled(AmountOn(effects, s), quantity);
    }
  }

  lemma Scaled(a: nat, b: nat)
    ensures 0 <= a * b
  {
  }

  lemma LoggedGains(db: Db, u: UserId, t: TemplateId, quantity: nat, now: int)
    requires AccountsOk(db) && TemplatesOk(db) && GainfulTemplates(db) && u in db.accounts && t in db.templates
    ensures Gainful(Logged(db, u, t, quantity, now).logs[|db.logs|].effects)
  {
    hide Post, Bump;
    assert ValidTemplate(db.templates[t], db.statIds);
    assert ValidAccount(db.accounts[u]);
    GainfulPost(db.accounts[u].stats, db.templates[t].effects, quantity);
  }

  /** A row a step brings is the one an accepted log appends. */
  lemma NewRow(db: Db, op: Op, r: ActivityLog)
    requires r in Step(db, op).logs && r !in db.logs
    ensures op.Log? && op.user in db.accounts && op.templateId in db.templates
    ensures var quantity := EffectiveQuantity(db.templates, op.templateId, op.quantity);
            quantity.Ok? && r == Logged(db, op.user, op.templateId, quantity.value, op.now).logs[|db.logs|]
  {
    hide Post, Unpost, Bump;
  }

  lemma StepOnlyGains(db: Db, op: Op)
    requires AccountsOk(db) && TemplatesOk(db) && OnlyGains(db) && GainfulOp(op)
    ensures OnlyGains(Step(db, op))
  {
    hide Post, Unpost, Bump, Logged, Deleted, AccountsOk, Gainful;
    var after := Step(db, op);
    forall i | 0 <= i < |after.logs| ensures Gainful(after.logs[i].effects) {
      var r := after.logs[i];
      assert LogsGain(db, r.user);
      if r !in db.logs {
        NewRow(db, op, r);
        assert ValidTemplate(db.templates[op.templateId], db.statIds);
        LoggedGains(
          db, op.user, op.templateId, EffectiveQuantity(db.templates, op.templateId, op.quantity).value, op.now);
      }
    }
    StepTemplates(db, op);
  }

  lemma StepTemplates(db: Db, op: Op)
    requires GainfulTemplates(db) && GainfulOp(op)
    ensures GainfulTemplates(Step(db, op))
  {
    hide Post, Unpost, Bump, Gainful;
  }

  lemma {:induction false} RunOnlyGains(db: Db, ops: seq<Op>)
    requires Inv(db) && OnlyGains(db) && forall i | 0 <= i < |ops| :: GainfulOp(ops[i])
    ensures OnlyGains(Run(db, ops))
  {
    hide OnlyGains, GainfulOp, AccountsOk, TemplatesOk, LogsOk, Sandwiched, StatCovers, Step;
    if ops != [] {
      RunOnlyGains(db, ops[..|ops| - 1]);
      RunKeepsInv(db, ops[..|ops| - 1]);
      StepOnlyGains(Run(db, ops[..|ops| - 1]), ops[|ops| - 1]);
    }
  }

  /** With a catalogue that never takes xp away, the ledgers of all users stay exact. */
  lemma {:induction false} GainfulRunsStayExact(db: Db, ops: seq<Op>)
    requires Inv(db) && Exact(db)
    requires forall i | 0 <= i < |ops| :: GainfulOp(ops[i])
    ensures Exact(Run(db, ops))
  {
    hide Inv, ExactOf, LogsGain, GainfulOp;
    RunOnlyGains(db, ops);
    forall u: UserId ensures ExactOf(Run(db, ops), u) {
      forall j | 0 <= j < |ops| ensures LogsGain(Run(db, ops[..j]), u) {
        RunOnlyGains(db, ops[..j]);
      }
      GainsStayExact(db, ops, u);
    }
  }

  lemma EmptyDbExact()
    ensures Exact(EMPTY_DB)
  {
  }
}
