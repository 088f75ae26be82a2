/**
  What one call to log_activity or delete_log leaves behind: when it is refused, which log row it
  adds or removes, and how that row accounts for the change to the stat rows.
 */
module LedgerOutcomes {
  import opened Scores
  import opened Ledger
  import opened Postings
  import opened LedgerInvariant

  predicate Loggable(db: Db, t: TemplateId, quantity: int) {
    && t in db.templates && db.templates[t].enabled
    && (db.templates[t].inputType.Binary? ||
        db.templates[t].minQuantity <= quantity <= db.templates[t].maxQuantity)
  }

  /** The log row accounts for what happened between two states: amount by amount for the user's
      stat rows, and in total for their sum. */
  ghost predicate AccountsFor(row: ActivityLog, before: Db, after: Db, u: UserId) {
    && row.user == u
    && row.total == SumAmounts(row.effects)
    && row.total == SumXp(AccountOf(after, u).stats) - SumXp(AccountOf(before, u).stats)
    && forall s: StatId :: AmountOn(row.effects, s) == StatScore(after, u, s).xp - StatScore(before, u, s).xp
  }

  /** A log is accepted exactly for an enabled template and a quantity in its range (any quantity,
      taken as 1, if the template is binary); a refused one changes nothing at all, and an accepted
      one appends one row, with an id no log has, that accounts for the change. */
  lemma LogOutcome(db: Db, u: UserId, t: TemplateId, quantity: int, now: int)
    requires Inv(db) && u in db.accounts
    ensures var after := Step(db, Log(u, t, quantity, now));
            if Loggable(db, t, quantity) then
              && |after.logs| == |db.logs| + 1 && after.logs[..|db.logs|] == db.logs
              && (forall i | 0 <= i < |db.logs| :: db.logs[i].id != after.logs[|db.logs|].id)
              && AccountsFor(after.logs[|db.logs|], db, after, u)
              && after.logs[|db.logs|].quantity == (if db.templates[t].inputType.Binary? then 1 else quantity)
              && after.logs[|db.logs|].templateId == t && after.logs[|db.logs|].createdAt == now
            else after == db
  {
    hide Bump, SumXp, AmountOn, SumAmounts;
    if Loggable(db, t, quantity) {
      var effective := if db.templates[t].inputType.Binary? then 1 else quantity;
      var after := Step(db, Log(u, t, quantity, now));
      var stats, effects := db.accounts[u].stats, db.templates[t].effects;
      PostTelescopes(stats, effects, effective, 0);
      forall s: StatId
        ensures AmountOn(after.logs[|db.logs|].effects, s) == StatScore(after, u, s).xp - StatScore(db, u, s).xp
      {
        PostTelescopes(stats, effects, effective, s);
      }
      forall i | 0 <= i < |db.logs| ensures db.logs[i].id != db.nextLogId {
        assert Coherent(db, db.logs[i]);
      }
    }
  }

  ghost predicate Owns(db: Db, u: UserId, id: LogId) {
    exists i :: 0 <= i < |db.logs| && db.logs[i].id == id && db.logs[i].user == u
  }

  /** A delete removes exactly the log with the given id, if it is the user's, and keeps all the
      others in their order; otherwise, as when it is repeated, it changes nothing. */
  lemma DeleteOutcome(db: Db, u: UserId, id: LogId)
    requires Inv(db) && u in db.accounts
    ensures var after := Step(db, Delete(u, id));
            && (Owns(db, u, id) ==>
                  exists i | 0 <= i < |db.logs| ::
                    db.logs[i].id == id && after.logs == db.logs[..i] + db.logs[i + 1..])
            && (!Owns(db, u, id) ==> after == db)
            && (forall i | 0 <= i < |after.logs| :: after.logs[i].user == u ==> after.logs[i].id != id)
            && Step(after, Delete(u, id)) == after
  {
    hide Bump, Unpost;
    var after := Step(db, Delete(u, id));
    if Owns(db, u, id) {
      var n := FindOwned(db.logs, u, id).value;
      assert after.logs == db.logs[..n] + db.logs[n + 1..];
      forall i | 0 <= i < |after.logs| ensures after.logs[i].id != id {
        OtherId(db, n, i);
      }
      assert FindOwned(after.logs, u, id).None?;
    }
  }

  lemma OtherId(db: Db, n: nat, i: nat)
    requires LogsOk(db) && n < |db.logs| && i < |db.logs| - 1
    ensures WithoutLog(db.logs, n)[i].id != db.logs[n].id
  {
    assert WithoutLog(db.logs, n)[i] == db.logs[if i < n then i else i + 1];
  }

  // ---------------------------------------------------------------- refusals

  /** Which error a log answers with: a missing template before a disabled one before a quantity
      out of range, and no error exactly when it is accepted. */
  lemma LogRefusals(db: Db, t: TemplateId, quantity: int)
    ensures var answer := EffectiveQuantity(db.templates, t, quantity);
            && (answer == Err(TemplateNotFound) <==> t !in db.templates)
            && (answer == Err(TemplateDisabled) <==> t in db.templates && !db.templates[t].enabled)
            && (answer == Err(QuantityOutOfRange) <==>
                  && t in db.templates && db.templates[t].enabled && db.templates[t].inputType.Quantity?
                  && (quantity < db.templates[t].minQuantity || db.templates[t].maxQuantity < quantity))
            && (answer.Ok? <==> Loggable(db, t, quantity))
            && (Loggable(db, t, quantity) ==>
                  answer.value == if db.templates[t].inputType.Binary? then 1 else quantity)
  {
  }

  // ---------------------------------------------------------------- what a step leaves alone

  /** A log or delete leaves the catalogue of stats and templates alone, and the other accounts; it
      gives its user rows for the stats of the template logged and for no others. */
  lemma CallsKeepCatalogue(db: Db, op: Op)
    requires Inv(db) && (op.Log? || op.Delete?)
    ensures var after := Step(db, op);
            && after.templates == db.templates && after.statIds == db.statIds
            && after.accounts.Keys == db.accounts.Keys
            && (forall v | v in db.accounts && v != op.user :: after.accounts[v] == db.accounts[v])
            && (op.user in db.accounts ==>
                  after.accounts[op.user].stats.Keys
                  == db.accounts[op.user].stats.Keys +
                     if op.Log? && Loggable(db, op.templateId, op.quantity)
                     then Ids(db.templates[op.templateId].effects) else {})
  {
    hide Post, Unpost, Bump, Ids;
    if op.user in db.accounts {
      var stats := db.accounts[op.user].stats;
      if op.Log? && Loggable(db, op.templateId, op.quantity) {
        PostShape(stats, db.templates[op.templateId].effects,
                  if db.templates[op.templateId].inputType.Binary? then 1 else op.quantity);
      } else if op.Delete? && FindOwned(db.logs, op.user, op.logId).Some? {
        UnpostKeys(stats, db.logs[FindOwned(db.logs, op.user, op.logId).value].effects);
      }
    }
  }

  /** A sign-up gives the new account one row per stat there is and none besides, each at xp 0 and
      level 1 like the global total, and changes nothing else. */
  lemma RegisterOutcome(db: Db, u: UserId)
    ensures var after := Step(db, Register(u));
            if u in db.accounts then after == db
            else
              && after.accounts.Keys == db.accounts.Keys + {u}
              && after.accounts[u].stats.Keys == db.statIds
              && (forall s | s in db.statIds :: after.accounts[u].stats[s] == Score(0, 1))
              && after.accounts[u].global == Score(0, 1)
              && (forall v | v in db.accounts :: after.accounts[v] == db.accounts[v])
              && after.(accounts := db.accounts) == db
  {
  }

  /** What admins do around the calls touches no account and no log, and does what it says: a new
      stat is there; a template saved within the constraints reads as saved; one that no log refers
      to is gone once dropped, and one that a log refers to stays. */
  lemma CatalogueOutcome(db: Db, op: Op)
    requires op.AddStat? || op.SaveTemplate? || op.DropTemplate?
    ensures var after := Step(db, op);
            && after.accounts == db.accounts && after.logs == db.logs && after.nextLogId == db.nextLogId
            && (op.AddStat? ==> after.statIds == db.statIds + {op.statId} && after.templates == db.templates)
            && (!op.AddStat? ==> after.statIds == db.statIds)
            && (!op.AddStat? ==>
                  forall t | t != op.templateId ::
                    (t in after.templates <==> t in db.templates)
                    && (t in db.templates ==> after.templates[t] == db.templates[t]))
            && (op.SaveTemplate? && ValidTemplate(op.template, db.statIds) ==>
                  op.templateId in after.templates && after.templates[op.templateId] == op.template)
            && (op.SaveTemplate? && !ValidTemplate(op.template, db.statIds) ==> after == db)
            && (op.DropTemplate? ==>
                  (op.templateId in after.templates
                   <==> op.templateId in db.templates && Referenced(db, op.templateId)))
  {
  }
}
