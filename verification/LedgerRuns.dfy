/**
  Laws of the ledger over whole runs: what a row's xp and level are as functions of everything
  that was ever asked of it, and how far the ledgers drift apart.
 */
module LedgerRuns {
  import opened Leveling
  import opened Scores
  import opened Ledger
  import opened Postings
  import opened LedgerInvariant

  // ---------------------------------------------------------------- reflection over runs

  /** Everything a run asked of one stat row, in order. */
  ghost function StatRequests(db: Db, ops: seq<Op>, u: UserId, s: StatId): seq<int> {
    if ops == [] then []
    else
      var init := ops[..|ops| - 1];
      StatRequests(db, init, u, s) + StatRequest(Run(db, init), ops[|ops| - 1], u, s)
  }

  /** Everything a run asked of one user's global total, in order. */
  ghost function GlobalRequests(db: Db, ops: seq<Op>, u: UserId): seq<int> {
    if ops == [] then []
    else
      var init := ops[..|ops| - 1];
      GlobalRequests(db, init, u) + GlobalRequest(Run(db, init), ops[|ops| - 1], u)
  }

  lemma {:induction false} RunMovesStat(db: Db, ops: seq<Op>, u: UserId, s: StatId)
    requires Inv(db)
    ensures StatScore(Run(db, ops), u, s) == BumpAll(StatScore(db, u, s), StatRequests(db, ops, u, s))
  {
    if ops != [] {
      var init, last := ops[..|ops| - 1], ops[|ops| - 1];
      var mid := Run(db, init);
      RunKeepsInv(db, init);
      RunMovesStat(db, init, u, s);
      StepMovesStat(mid, last, u, s);
      BumpAllConcat(StatScore(db, u, s), StatRequests(db, init, u, s), StatRequest(mid, last, u, s));
    }
  }

  lemma {:induction false} RunMovesGlobal(db: Db, ops: seq<Op>, u: UserId)
    ensures GlobalScore(Run(db, ops), u) == BumpAll(GlobalScore(db, u), GlobalRequests(db, ops, u))
  {
    if ops != [] {
      var init, last := ops[..|ops| - 1], ops[|ops| - 1];
      var mid := Run(db, init);
      RunMovesGlobal(db, init, u);
      StepMovesGlobal(mid, last, u);
      BumpAllConcat(GlobalScore(db, u), GlobalRequests(db, init, u), GlobalRequest(mid, last, u));
    }
  }

  /** From any consistent state in which the row is still new (the empty database is one): the
      row's xp is the running total of the run's requests, measured from that total's lowest
      point. */
  lemma {:induction false} StatReflection(db: Db, ops: seq<Op>, u: UserId, s: StatId)
    requires Inv(db) && StatScore(db, u, s) == NEW_SCORE
    ensures Reflects(StatRequests(db, ops, u, s), StatScore(Run(db, ops), u, s).xp)
  {
    RunMovesStat(db, ops, u, s);
    Reflection(StatRequests(db, ops, u, s));
  }

  lemma {:induction false} GlobalReflection(db: Db, ops: seq<Op>, u: UserId)
    requires GlobalScore(db, u) == NEW_SCORE
    ensures Reflects(GlobalRequests(db, ops, u), GlobalScore(Run(db, ops), u).xp)
  {
    RunMovesGlobal(db, ops, u);
    Reflection(GlobalRequests(db, ops, u));
  }

  // ---------------------------------------------------------------- high-water mark over runs

  /** The xp of a stat row in every state of a run, first to last. */
  ghost function StatHistory(db: Db, ops: seq<Op>, u: UserId, s: StatId): (xps: seq<int>)
    ensures xps != []
  {
    if ops == [] then [StatScore(db, u, s).xp]
    else StatHistory(db, ops[..|ops| - 1], u, s) + [StatScore(Run(db, ops), u, s).xp]
  }

  ghost function GlobalHistory(db: Db, ops: seq<Op>, u: UserId): (xps: seq<int>)
    ensures xps != []
  {
    if ops == [] then [GlobalScore(db, u).xp]
    else GlobalHistory(db, ops[..|ops| - 1], u) + [GlobalScore(Run(db, ops), u).xp]
  }

  /** Applying one more request, or none, adds what the score then shows, or nothing new. */
  lemma {:induction false} TraceOfMore(requests: seq<int>, request: seq<int>, x: int)
    requires |request| <= 1
    ensures x in Trace(requests + request)
            <==> x in Trace(requests) || x == BumpAll(NEW_SCORE, requests + request).xp
  {
    if request == [] {
      assert requests + request == requests;
      LastOfTrace(requests);
    } else {
      assert (requests + request)[..|requests + request| - 1] == requests;
    }
  }

  lemma LastOfTrace(requests: seq<int>)
    ensures Trace(requests)[|requests|] == BumpAll(NEW_SCORE, requests).xp
  {
  }

  /** A row has held exactly the xp values that its requests, one after the other, lead to. */
  lemma {:induction false} StatHistoryIsTrace(db: Db, ops: seq<Op>, u: UserId, s: StatId, x: int)
    requires Inv(db) && StatScore(db, u, s) == NEW_SCORE
    ensures x in StatHistory(db, ops, u, s) <==> x in Trace(StatRequests(db, ops, u, s))
  {
    hide Inv, StatRequest, Trace;
    RunMovesStat(db, ops, u, s);
    if ops == [] {
      LastOfTrace([]);
      assert Trace([]) == [0];
    } else {
      var init, last := ops[..|ops| - 1], ops[|ops| - 1];
      StatHistoryIsTrace(db, init, u, s, x);
      OneRequest(Run(db, init), last, u, s);
      TraceOfMore(StatRequests(db, init, u, s), StatRequest(Run(db, init), last, u, s), x);
    }
  }

  lemma OneRequest(db: Db, op: Op, u: UserId, s: StatId)
    ensures |StatRequest(db, op, u, s)| <= 1 && |GlobalRequest(db, op, u)| <= 1
  {
  }

  lemma {:induction false} GlobalHistoryIsTrace(db: Db, ops: seq<Op>, u: UserId, x: int)
    requires GlobalScore(db, u) == NEW_SCORE
    ensures x in GlobalHistory(db, ops, u) <==> x in Trace(GlobalRequests(db, ops, u))
  {
    hide GlobalRequest, Trace;
    RunMovesGlobal(db, ops, u);
    if ops == [] {
      LastOfTrace([]);
      assert Trace([]) == [0];
    } else {
      var init, last := ops[..|ops| - 1], ops[|ops| - 1];
      GlobalHistoryIsTrace(db, init, u, x);
      OneRequest(Run(db, init), last, u, 0);
      TraceOfMore(GlobalRequests(db, init, u), GlobalRequest(Run(db, init), last, u), x);
    }
  }

  /** A stored stat level is the level of the highest xp the row has held in the whole run. */
  lemma StatHighWater(db: Db, ops: seq<Op>, u: UserId, s: StatId, peak: int)
    requires Inv(db) && StatScore(db, u, s) == NEW_SCORE
    requires IsHighest(StatHistory(db, ops, u, s), peak)
    ensures StatScore(Run(db, ops), u, s).level == LevelFromXp(peak)
  {
    var requests := StatRequests(db, ops, u, s);
    RunMovesStat(db, ops, u, s);
    forall x: int ensures x in StatHistory(db, ops, u, s) <==> x in Trace(requests) {
      StatHistoryIsTrace(db, ops, u, s, x);
    }
    LevelIsHighWater(requests, peak);
  }

  /** The same for the global level. */
  lemma GlobalHighWater(db: Db, ops: seq<Op>, u: UserId, peak: int)
    requires GlobalScore(db, u) == NEW_SCORE
    requires IsHighest(GlobalHistory(db, ops, u), peak)
    ensures GlobalScore(Run(db, ops), u).level == LevelFromXp(peak)
  {
    var requests := GlobalRequests(db, ops, u);
    RunMovesGlobal(db, ops, u);
    forall x: int ensures x in GlobalHistory(db, ops, u) <==> x in Trace(requests) {
      GlobalHistoryIsTrace(db, ops, u, x);
    }
    LevelIsHighWater(requests, peak);
  }

  // ---------------------------------------------------------------- drift

  /** How far a stat row stands above what its live logs applied. */
  ghost function StatDrift(db: Db, u: UserId, s: StatId): int {
    StatScore(db, u, s).xp - LiveOn(db.logs, u, s)
  }

  /** The log a step deletes, if it deletes one. */
  ghost function Reverted(db: Db, op: Op): Option<nat> {
    if op.Delete? && op.user in db.accounts then FindOwned(db.logs, op.user, op.logId) else None
  }

  lemma LoggedDrift(db: Db, v: UserId, t: TemplateId, quantity: int, now: int, u: UserId, s: StatId)
    requires v in db.accounts && t in db.templates
    ensures StatDrift(Logged(db, v, t, quantity, now), u, s) == StatDrift(db, u, s)
  {
    LiveAppend(db.logs, Logged(db, v, t, quantity, now).logs[|db.logs|], u, s);
    PostTelescopes(db.accounts[v].stats, db.templates[t].effects, quantity, s);
  }

  lemma DeletedDrift(db: Db, v: UserId, i: nat, u: UserId, s: StatId)
    requires v in db.accounts && i < |db.logs| && Coherent(db, db.logs[i]) && db.logs[i].user == v
    requires 0 <= StatScore(db, u, s).xp
    ensures StatDrift(Deleted(db, v, i), u, s)
         == StatDrift(db, u, s) + Max(0, ShareOn(db.logs[i], u, s) - StatScore(db, u, s).xp)
  {
    LiveWithout(db.logs, i, u, s);
    DeletedScores(db, v, i, u, s);
    if s !in Ids(db.logs[i].effects) {
      AmountOnAbsent(db.logs[i].effects, s);
    }
  }

  /** Drift law: only a delete creates drift, and it creates exactly the part of the reverted
      amount that the row no longer held. */
  lemma StepDrift(db: Db, op: Op, u: UserId, s: StatId)
    requires Inv(db)
    ensures 0 <= StatDrift(db, u, s)
    ensures var reverted := Reverted(db, op);
            StatDrift(Step(db, op), u, s) - StatDrift(db, u, s)
            == if reverted.None? then 0
               else Max(0, ShareOn(db.logs[reverted.value], u, s) - StatScore(db, u, s).xp)
  {
    assert StatCovers(db, u, s);
    if op.Log? {
      if op.user in db.accounts && EffectiveQuantity(db.templates, op.templateId, op.quantity).Ok? {
        var quantity := EffectiveQuantity(db.templates, op.templateId, op.quantity).value;
        LoggedDrift(db, op.user, op.templateId, quantity, op.now, u, s);
      }
    } else if Reverted(db, op).Some? {
      ScoresValid(db, u, s);
      DeletedDrift(db, op.user, Reverted(db, op).value, u, s);
    }
  }

  /** What the floor of one stat row gives back in a step: the part of the amount taken out by a
      delete that the row no longer held. */
  ghost function FlooredOff(db: Db, op: Op, u: UserId, s: StatId): nat {
    var reverted := Reverted(db, op);
    if reverted.None? then 0
    else Max(0, ShareOn(db.logs[reverted.value], u, s) - StatScore(db, u, s).xp)
  }

  ghost function AllFlooredOff(db: Db, ops: seq<Op>, u: UserId, s: StatId): nat {
    if ops == [] then 0
    else
      var init := ops[..|ops| - 1];
      AllFlooredOff(db, init, u, s) + FlooredOff(Run(db, init), ops[|ops| - 1], u, s)
  }

  /** Over any run a row's drift grows by exactly what its floor gave back at the run's deletes;
      it is never negative and never shrinks. */
  lemma {:induction false} RunDrift(db: Db, ops: seq<Op>, u: UserId, s: StatId)
    requires Inv(db)
    ensures StatDrift(Run(db, ops), u, s) == StatDrift(db, u, s) + AllFlooredOff(db, ops, u, s)
    ensures 0 <= StatDrift(db, u, s) <= StatDrift(Run(db, ops), u, s)
  {
    hide StatDrift;
    if ops == [] {
      StepDrift(db, AddStat(0), u, s);
    } else {
      var init := ops[..|ops| - 1];
      RunDrift(db, init, u, s);
      RunKeepsInv(db, init);
      StepDrift(Run(db, init), ops[|ops| - 1], u, s);
    }
  }

  // ---------------------------------------------------------------- global xp against stat xp

  /** How far the global total trails the sum of the user's stat rows. */
  ghost function GlobalGap(db: Db, u: UserId): int {
    SumXp(AccountOf(db, u).stats) - GlobalScore(db, u).xp
  }

  ghost predicate Balanced(db: Db, u: UserId) {
    GlobalGap(db, u) == 0
  }

  /** A log leaves the gap alone unless the global floor fires, and then it closes part of it. */
  lemma LogMovesGap(db: Db, u: UserId, t: TemplateId, quantity: int, now: int)
    requires u in db.accounts && t in db.templates
    ensures var total := Post(db.accounts[u].stats, db.templates[t].effects, quantity).total;
            GlobalGap(Logged(db, u, t, quantity, now), u)
            == GlobalGap(db, u) - Max(0, -(GlobalScore(db, u).xp + total))
  {
    PostTelescopes(db.accounts[u].stats, db.templates[t].effects, quantity, 0);
  }

  /** A delete opens the gap by what the stat floors gave back, less what the global floor did. */
  lemma DeleteMovesGap(db: Db, u: UserId, i: nat)
    requires u in db.accounts && i < |db.logs| && Coherent(db, db.logs[i]) && db.logs[i].user == u
    ensures GlobalGap(Deleted(db, u, i), u)
         == GlobalGap(db, u) + Shortfall(db.accounts[u].stats, db.logs[i].effects)
            - Max(0, db.logs[i].total - GlobalScore(db, u).xp)
  {
    UnpostSum(db.accounts[u].stats, db.logs[i].effects);
  }

  /** What a step does to the gap: the user's stat floors open it, the global floor closes it. */
  ghost function GapMove(db: Db, op: Op, u: UserId): int {
    if u !in db.accounts then 0
    else match op
      case Log(v, t, q, _) =>
        if v != u then 0
        else (match EffectiveQuantity(db.templates, t, q)
              case Err(_) => 0
              case Ok(quantity) =>
                var total := Post(db.accounts[u].stats, db.templates[t].effects, quantity).total;
                -Max(0, -(GlobalScore(db, u).xp + total)))
      case Delete(v, id) =>
        if v != u then 0
        else (match FindOwned(db.logs, u, id)
              case None => 0
              case Some(i) =>
                Shortfall(db.accounts[u].stats, db.logs[i].effects)
                - Max(0, db.logs[i].total - GlobalScore(db, u).xp))
      case _ => 0
  }

  ghost function AllGapMoves(db: Db, ops: seq<Op>, u: UserId): int {
    if ops == [] then 0
    else
      var init := ops[..|ops| - 1];
      AllGapMoves(db, init, u) + GapMove(Run(db, init), ops[|ops| - 1], u)
  }

  lemma StepMovesGap(db: Db, op: Op, u: UserId)
    requires Inv(db)
    ensures GlobalGap(Step(db, op), u) == GlobalGap(db, u) + GapMove(db, op, u)
  {
    hide GlobalGap, Inv, Post, Shortfall;
    if op.Log? && op.user == u && u in db.accounts
       && EffectiveQuantity(db.templates, op.templateId, op.quantity).Ok? {
      var quantity := EffectiveQuantity(db.templates, op.templateId, op.quantity).value;
      LogMovesGap(db, u, op.templateId, quantity, op.now);
    } else if op.Delete? && op.user == u && Reverted(db, op).Some? {
      var i := Reverted(db, op).value;
      assert Coherent(db, db.logs[i]) by { LiveLogCoherent(db, i); }
      DeleteMovesGap(db, u, i);
    } else {
      OtherKeepsGap(db, op, u);
    }
  }

  lemma LiveLogCoherent(db: Db, i: nat)
    requires Inv(db) && i < |db.logs|
    ensures Coherent(db, db.logs[i])
  {
  }

  /** A refused call, another user's call, or a step that is no call leaves the gap alone; an
      account just created is as empty as none. */
  lemma OtherKeepsGap(db: Db, op: Op, u: UserId)
    requires op.Log? && op.user == u && u in db.accounts ==>
               EffectiveQuantity(db.templates, op.templateId, op.quantity).Err?
    requires op.Delete? && op.user == u ==> Reverted(db, op).None?
    ensures GlobalGap(Step(db, op), u) == GlobalGap(db, u)
  {
    hide Post, Unpost, Bump;
    if op == Register(u) {
      SumXpNonNegative(FreshAccount(db.statIds).stats);
      SumXpNonNegative(map[]);
    }
  }

  /** Over any run the gap between the stat rows and the global total moves by exactly what the
      stat floors gave back less what the global floor did. */
  lemma {:induction false} RunMovesGap(db: Db, ops: seq<Op>, u: UserId)
    requires Inv(db)
    ensures GlobalGap(Run(db, ops), u) == GlobalGap(db, u) + AllGapMoves(db, ops, u)
  {
    hide GlobalGap, GapMove;
    if ops != [] {
      var init := ops[..|ops| - 1];
      RunMovesGap(db, init, u);
      RunKeepsInv(db, init);
      StepMovesGap(Run(db, init), ops[|ops| - 1], u);
    }
  }

  /** No stat floor fires: every applied amount is still held by its row. */
  predicate FullyHeld(stats: map<StatId, Score>, effects: seq<Effect>) {
    forall i | 0 <= i < |effects| :: effects[i].xp <= ScoreOf(stats, effects[i].statId).xp
  }

  /** Reverting these effects leaves no xp in any row. */
  predicate Empties(stats: map<StatId, Score>, effects: seq<Effect>) {
    forall s | s in stats :: stats[s].xp <= AmountOn(effects, s)
  }

  lemma EmptiesAll(stats: map<StatId, Score>, effects: seq<Effect>)
    requires Distinct(effects) && forall s | s in stats :: 0 <= stats[s].xp
    ensures Empties(stats, effects) <==> SumXp(Unpost(stats, effects)) == 0
  {
    var after := Unpost(stats, effects);
    forall s | s in stats
      ensures s in after && 0 <= after[s].xp && (after[s].xp == 0 <==> stats[s].xp <= AmountOn(effects, s))
    {
      UnpostPointwise(stats, effects, s);
      if s !in Ids(effects) { AmountOnAbsent(effects, s); }
    }
    UnpostKeys(stats, effects);
    SumXpNonNegative(after);
  }

  /** The documented rule "global xp is the sum of all stat xp" survives a log always, and a
      delete exactly when no stat floor fires or the delete empties every stat. */
  lemma DeleteKeepsBalance(db: Db, u: UserId, i: nat)
    requires Inv(db) && Balanced(db, u)
    requires u in db.accounts && i < |db.logs| && db.logs[i].user == u
    ensures Balanced(Deleted(db, u, i), u)
            <==> FullyHeld(db.accounts[u].stats, db.logs[i].effects)
                 || Empties(db.accounts[u].stats, db.logs[i].effects)
  {
    var stats, row := db.accounts[u].stats, db.logs[i];
    assert Coherent(db, row);
    assert ValidAccount(db.accounts[u]);
    DeleteMovesGap(db, u, i);
    UnpostSum(stats, row.effects);
    ShortfallSign(stats, row.effects);
    EmptiesAll(stats, row.effects);
    DeletedKeepsScores(db, u, i);
    SumXpNonNegative(Unpost(stats, row.effects));
  }

  lemma {:induction false} LogKeepsBalance(db: Db, u: UserId, t: TemplateId, quantity: int, now: int, v: UserId)
    requires Inv(db) && Balanced(db, v) && u in db.accounts && t in db.templates
    ensures Balanced(Logged(db, u, t, quantity, now), v)
    ensures v == u ==> 0 <= GlobalScore(db, u).xp + Post(db.accounts[u].stats, db.templates[t].effects, quantity).total
  {
    if v == u {
      LogStepKeeps(db, u, t, quantity, now);
      var after := Logged(db, u, t, quantity, now);
      assert Sandwiched(after, u);
      assert ValidAccount(after.accounts[u]);
      PostTelescopes(db.accounts[u].stats, db.templates[t].effects, quantity, 0);
      SumXpNonNegative(after.accounts[u].stats);
    }
  }
}
