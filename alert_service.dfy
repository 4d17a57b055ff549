/** Alert evaluation: the trigger decision for one rule, and the run that
    judges every active rule against one snapshot of the latest prices,
    notifies the owners of triggered rules and deactivates those rules.

    As the code is written, a triggered rule whose owner cannot be found is
    counted but neither notified nor deactivated. */
module Alerts {
  import opened Common
  import opened RuleStore
  import opened PriceStore
  import opened Notifier

  /** `check_rule_triggered`: strict comparison in the rule's direction; any
      condition other than `>` or `<` never triggers. */
  function CheckRuleTriggered(rule: Row, currentPrice: real): (triggered: bool)
    ensures rule.condition == ">" ==> (triggered <==> currentPrice > rule.threshold)
    ensures rule.condition == "<" ==> (triggered <==> currentPrice < rule.threshold)
    ensures rule.condition != ">" && rule.condition != "<" ==> !triggered
  {
    if rule.condition == ">" then currentPrice > rule.threshold
    else if rule.condition == "<" then currentPrice < rule.threshold
    else false
  }

  /** A price equal to the threshold never triggers, in either direction. */
  lemma EqualPriceNeverTriggers(rule: Row)
    ensures !CheckRuleTriggered(rule, rule.threshold)
  {
  }

  /** The boundary cases the unit tests pin down. */
  lemma TriggerExamples(rule: Row)
    ensures rule.condition == ">" && rule.threshold == 0.00001234 ==> CheckRuleTriggered(rule, 0.00001235)
    ensures rule.condition == "<" && rule.threshold == 0.00001234 ==> CheckRuleTriggered(rule, 0.00001233)
    ensures rule.condition == ">" && rule.threshold == 99999999.99 ==> CheckRuleTriggered(rule, 100000000.00)
    ensures rule.condition == "=" ==> !CheckRuleTriggered(rule, rule.threshold)
  {
  }

  /** The rule's currency has a price in the snapshot and the rule triggers. */
  predicate Fires(rule: Row, prices: map<string, real>)
  {
    rule.currency in prices && CheckRuleTriggered(rule, prices[rule.currency])
  }

  /** What a run has done so far: the two counters, the ids it deactivated and
      the alert emails it attempted. */
  datatype Tally = Tally(checked: nat, triggered: nat, deactivated: set<nat>, emails: seq<Email>)

  /** One iteration of the loop over the active rules. */
  function Step(t: Tally, rule: Row, prices: map<string, real>, users: map<nat, string>): (r: Tally)
    ensures r.checked == t.checked + 1
    ensures r.triggered == t.triggered + (if Fires(rule, prices) then 1 else 0)
    ensures r.deactivated == if Fires(rule, prices) && rule.userId in users then t.deactivated + {rule.id} else t.deactivated
    ensures |r.emails| == |t.emails| + (if Fires(rule, prices) && rule.userId in users then 1 else 0)
    ensures r.emails[..|t.emails|] == t.emails
    ensures |r.emails| > |t.emails| ==> r.emails[|t.emails|].to == users[rule.userId]
  {
    var t1 := t.(checked := t.checked + 1);
    if !Fires(rule, prices) then t1
    else if rule.userId !in users then t1.(triggered := t1.triggered + 1)
    else
      var mail := AlertEmail(users[rule.userId], rule.currency, rule.condition, rule.threshold, prices[rule.currency]);
      t1.(triggered := t1.triggered + 1, deactivated := t.deactivated + {rule.id}, emails := t.emails + [mail])
  }

  /** The loop over a snapshot of rules, in snapshot order. */
  function Evaluate(snapshot: seq<Row>, prices: map<string, real>, users: map<nat, string>): Tally
  {
    if snapshot == [] then Tally(0, 0, {}, [])
    else Step(Evaluate(snapshot[..|snapshot| - 1], prices, users), snapshot[|snapshot| - 1], prices, users)
  }

  /** Every rule is checked once; only checked rules trigger, and there are
      no more e-mails than triggered rules. */
  lemma {:induction false} EvaluateBounds(snapshot: seq<Row>, prices: map<string, real>, users: map<nat, string>)
    ensures Evaluate(snapshot, prices, users).checked == |snapshot|
    ensures Evaluate(snapshot, prices, users).triggered <= |snapshot|
    ensures |Evaluate(snapshot, prices, users).emails| <= Evaluate(snapshot, prices, users).triggered
  {
    if snapshot != [] {
      EvaluateBounds(snapshot[..|snapshot| - 1], prices, users);
    }
  }

  /** The number of rules of `rules` that fire. */
  function CountFiring(rules: seq<Row>, prices: map<string, real>): (n: nat)
    ensures n <= |rules|
  {
    if rules == [] then 0
    else CountFiring(rules[1..], prices) + (if Fires(rules[0], prices) then 1 else 0)
  }

  lemma {:induction false} CountFiringAppend(rules: seq<Row>, rule: Row, prices: map<string, real>)
    ensures CountFiring(rules + [rule], prices) == CountFiring(rules, prices) + (if Fires(rule, prices) then 1 else 0)
  {
    if rules != [] {
      assert (rules + [rule])[1..] == rules[1..] + [rule];
      CountFiringAppend(rules[1..], rule, prices);
    } else {
      assert [rule][1..] == [];
    }
  }

  lemma CountFiringNone(rules: seq<Row>, prices: map<string, real>)
    requires forall r :: r in rules ==> !Fires(r, prices)
    ensures CountFiring(rules, prices) == 0
  {
    if rules != [] {
      assert forall r :: r in rules[1..] ==> r in rules;
      CountFiringNone(rules[1..], prices);
    }
  }

  /** The counters: every rule is checked once, and exactly the firing rules
      are counted as triggered (whether or not their owner exists). */
  lemma {:induction false} EvaluateCounts(snapshot: seq<Row>, prices: map<string, real>, users: map<nat, string>)
    ensures Evaluate(snapshot, prices, users).checked == |snapshot|
    ensures Evaluate(snapshot, prices, users).triggered == CountFiring(snapshot, prices)
    ensures Evaluate(snapshot, prices, users).triggered <= Evaluate(snapshot, prices, users).checked
  {
    if snapshot != [] {
      var n := |snapshot| - 1;
      EvaluateCounts(snapshot[..n], prices, users);
      CountFiringAppend(snapshot[..n], snapshot[n], prices);
      assert snapshot[..n] + [snapshot[n]] == snapshot;
    }
  }

  /** The rule is triggered and its owner was found: the only case that
      notifies and deactivates. */
  predicate Notified(rule: Row, prices: map<string, real>, users: map<nat, string>)
  {
    Fires(rule, prices) && rule.userId in users
  }

  function AlertFor(rule: Row, prices: map<string, real>, users: map<nat, string>): Email
    requires Notified(rule, prices, users)
  {
    AlertEmail(users[rule.userId], rule.currency, rule.condition, rule.threshold, prices[rule.currency])
  }

  /** A rule id is deactivated exactly when a rule with that id was notified. */
  lemma {:induction false} EvaluateDeactivated(snapshot: seq<Row>, prices: map<string, real>, users: map<nat, string>)
    ensures forall id :: id in Evaluate(snapshot, prices, users).deactivated <==>
      exists r :: r in snapshot && r.id == id && Notified(r, prices, users)
  {
    if snapshot != [] {
      var n := |snapshot| - 1;
      EvaluateDeactivated(snapshot[..n], prices, users);
      assert snapshot == snapshot[..n] + [snapshot[n]];
    }
  }

  /** Every email sent is the alert of a notified rule of the snapshot, and
      there are no more emails than triggered rules. */
  lemma {:induction false} EvaluateEmailsSound(snapshot: seq<Row>, prices: map<string, real>, users: map<nat, string>)
    ensures |Evaluate(snapshot, prices, users).emails| <= Evaluate(snapshot, prices, users).triggered
    ensures forall e :: e in Evaluate(snapshot, prices, users).emails ==>
      exists r :: r in snapshot && Notified(r, prices, users) && e == AlertFor(r, prices, users)
  {
    if snapshot != [] {
      var n := |snapshot| - 1;
      EvaluateEmailsSound(snapshot[..n], prices, users);
      assert snapshot == snapshot[..n] + [snapshot[n]];
      var before := Evaluate(snapshot[..n], prices, users);
      var after := Evaluate(snapshot, prices, users);
      forall e | e in after.emails
        ensures exists r :: r in snapshot && Notified(r, prices, users) && e == AlertFor(r, prices, users)
      {
        if e in before.emails {
          var r :| r in snapshot[..n] && Notified(r, prices, users) && e == AlertFor(r, prices, users);
          assert r in snapshot;
        } else {
          assert snapshot[n] in snapshot;
        }
      }
    }
  }

  /** Every notified rule of the snapshot had its alert email sent, to its
      owner and quoting the snapshot price. */
  lemma {:induction false} EvaluateEmailsComplete(snapshot: seq<Row>, prices: map<string, real>, users: map<nat, string>)
    ensures forall r :: r in snapshot && Notified(r, prices, users) ==>
      AlertFor(r, prices, users) in Evaluate(snapshot, prices, users).emails
  {
    if snapshot != [] {
      var n := |snapshot| - 1;
      EvaluateEmailsComplete(snapshot[..n], prices, users);
      assert snapshot == snapshot[..n] + [snapshot[n]];
    }
  }

  /** The alert e-mails a run owes, read front to back: one per notified
      rule, in snapshot order. */
  function NotifiedAlerts(rules: seq<Row>, prices: map<string, real>, users: map<nat, string>): (es: seq<Email>)
    ensures |es| <= CountFiring(rules, prices)
  {
    if rules == [] then []
    else (if Notified(rules[0], prices, users) then [AlertFor(rules[0], prices, users)] else [])
         + NotifiedAlerts(rules[1..], prices, users)
  }

  lemma {:induction false} NotifiedAlertsAppend(rules: seq<Row>, rule: Row, prices: map<string, real>, users: map<nat, string>)
    ensures NotifiedAlerts(rules + [rule], prices, users) ==
      NotifiedAlerts(rules, prices, users) + (if Notified(rule, prices, users) then [AlertFor(rule, prices, users)] else [])
  {
    if rules != [] {
      assert (rules + [rule])[1..] == rules[1..] + [rule];
      NotifiedAlertsAppend(rules[1..], rule, prices, users);
    } else {
      assert [rule][1..] == [];
    }
  }

  /** The outbox of a run is exactly one alert per notified rule, in snapshot
      order: no rule is e-mailed twice and none is skipped. */
  lemma {:induction false} EvaluateEmailsExact(snapshot: seq<Row>, prices: map<string, real>, users: map<nat, string>)
    ensures Evaluate(snapshot, prices, users).emails == NotifiedAlerts(snapshot, prices, users)
  {
    if snapshot != [] {
      var n := |snapshot| - 1;
      EvaluateEmailsExact(snapshot[..n], prices, users);
      NotifiedAlertsAppend(snapshot[..n], snapshot[n], prices, users);
      assert snapshot[..n] + [snapshot[n]] == snapshot;
    }
  }

  /** `rule.update(is_active=False)` applied to every id of `ids`. */
  function Deactivate(rows: map<nat, Row>, ids: set<nat>): (d: map<nat, Row>)
    ensures d.Keys == rows.Keys
  {
    map id | id in rows :: if id in ids then rows[id].(isActive := false) else rows[id]
  }

  const Deactivation := Changes(None, None, None, Some(false))

  lemma DeactivateOneMore(rows: map<nat, Row>, ids: set<nat>, id: nat)
    requires id in rows
    ensures Written(Deactivate(rows, ids), id, Deactivation) == Deactivate(rows, ids + {id})
  {
  }

  /** Over an active snapshot, the deactivated ids are exactly the stored
      rules that are active and notified. */
  lemma DeactivatedAreNotified(rows: map<nat, Row>, snapshot: seq<Row>, prices: map<string, real>, users: map<nat, string>)
    requires KeyedById(rows) && IsActiveSnapshot(rows, snapshot)
    ensures forall id :: id in rows ==>
      (id in Evaluate(snapshot, prices, users).deactivated <==> rows[id].isActive && Notified(rows[id], prices, users))
  {
    EvaluateDeactivated(snapshot, prices, users);
    var d := Evaluate(snapshot, prices, users).deactivated;
    forall id | id in rows
      ensures id in d <==> rows[id].isActive && Notified(rows[id], prices, users)
    {
      if id in d {
        var r :| r in snapshot && r.id == id && Notified(r, prices, users);
        assert rows[r.id] == r;
      }
      if rows[id].isActive && Notified(rows[id], prices, users) {
        assert rows[id] in snapshot;
      }
    }
  }

  /** The table after a run, rule by rule and independent of the snapshot's
      order: an active rule that fires and whose owner exists is now inactive;
      every other rule (untriggered, without a price, without an owner,
      already inactive) is exactly as it was. */
  lemma RunOutcome(rows: map<nat, Row>, snapshot: seq<Row>, prices: map<string, real>, users: map<nat, string>)
    requires KeyedById(rows) && IsActiveSnapshot(rows, snapshot)
    ensures Deactivate(rows, Evaluate(snapshot, prices, users).deactivated).Keys == rows.Keys
    ensures forall id :: id in rows ==>
      Deactivate(rows, Evaluate(snapshot, prices, users).deactivated)[id] ==
        if rows[id].isActive && Notified(rows[id], prices, users) then rows[id].(isActive := false) else rows[id]
  {
    DeactivatedAreNotified(rows, snapshot, prices, users);
  }

  /** Re-running against the same prices triggers nothing new except rules
      whose owner is missing: every notified rule was switched off. */
  lemma RerunOnlyOwnerless(rows: map<nat, Row>, snapshot: seq<Row>, prices: map<string, real>, users: map<nat, string>)
    requires KeyedById(rows) && IsActiveSnapshot(rows, snapshot)
    ensures var after := Deactivate(rows, Evaluate(snapshot, prices, users).deactivated);
      forall id :: id in after && after[id].isActive && Fires(after[id], prices) ==> after[id].userId !in users
  {
    RunOutcome(rows, snapshot, prices, users);
  }

  /** When every owner exists, a second run right after the first with the
      same prices triggers nothing. */
  lemma SecondRunQuiet(rows: map<nat, Row>, snapshot: seq<Row>, again: seq<Row>, prices: map<string, real>, users: map<nat, string>)
    requires KeyedById(rows) && IsActiveSnapshot(rows, snapshot)
    requires forall id :: id in rows ==> rows[id].userId in users
    requires IsActiveSnapshot(Deactivate(rows, Evaluate(snapshot, prices, users).deactivated), again)
    ensures Evaluate(again, prices, users).triggered == 0
  {
    var after := Deactivate(rows, Evaluate(snapshot, prices, users).deactivated);
    RunOutcome(rows, snapshot, prices, users);
    forall r | r in again ensures !Fires(r, prices) {
      assert after[r.id] == r;
    }
    CountFiringNone(again, prices);
    EvaluateCounts(again, prices, users);
  }

  /** A single-rule run: one active rule BTC > 50000 and a latest
      BTC price of 55000 give (1, 1) and leave the rule inactive; a second run
      then checks nothing. */
  lemma SingleRuleExample(rule: Row, snapshot: seq<Row>, again: seq<Row>, email: string)
    requires rule == Row(1, 7, "BTC", ">", 50000.0, true, 0)
    requires IsActiveSnapshot(map[1 := rule], snapshot)
    requires IsActiveSnapshot(
      Deactivate(map[1 := rule], Evaluate(snapshot, map["BTC" := 55000.0], map[7 := email]).deactivated), again)
    ensures Evaluate(snapshot, map["BTC" := 55000.0], map[7 := email]).checked == 1
    ensures Evaluate(snapshot, map["BTC" := 55000.0], map[7 := email]).triggered == 1
    ensures !Deactivate(map[1 := rule], Evaluate(snapshot, map["BTC" := 55000.0], map[7 := email]).deactivated)[1].isActive
    ensures Evaluate(again, map["BTC" := 55000.0], map[7 := email]).checked == 0
    ensures Evaluate(again, map["BTC" := 55000.0], map[7 := email]).triggered == 0
  {
    var rows := map[1 := rule];
    var prices := map["BTC" := 55000.0];
    var users := map[7 := email];
    SingleRowSnapshot(1, rule, snapshot);
    assert Evaluate(snapshot, prices, users) == Step(Evaluate([], prices, users), rule, prices, users);
    RunOutcome(rows, snapshot, prices, users);
    var after := Deactivate(rows, Evaluate(snapshot, prices, users).deactivated);
    NoActiveRowsNoSnapshot(after, again);
  }

  /** The active snapshot of a table holding one active row is that row. */
  lemma SingleRowSnapshot(id: nat, r: Row, list: seq<Row>)
    requires r.id == id && r.isActive && IsActiveSnapshot(map[id := r], list)
    ensures list == [r]
  {
    assert map[id := r][id] == r;
    forall j | 0 <= j < |list| ensures list[j] == r {
      assert list[j] in list;
    }
    SharedIdAtMostOne(list, id);
  }

  /** The first two positions of a sequence, when present, are members.
      Proof step of `SharedIdAtMostOne` and `NoActiveRowsNoSnapshot`: it puts
      the membership terms in scope without a case split the solver would
      otherwise need. */
  lemma HeadsInList<T>(s: seq<T>)
    ensures |s| > 0 ==> s[0] in s
    ensures |s| > 1 ==> s[1] in s
  {
  }

  lemma SharedIdAtMostOne(list: seq<Row>, id: nat)
    requires DistinctIds(list) && forall x :: x in list ==> x.id == id
    ensures |list| <= 1
  {
    HeadsInList(list);
  }

  /** A table without active rows has an empty active snapshot. */
  lemma NoActiveRowsNoSnapshot(rows: map<nat, Row>, list: seq<Row>)
    requires IsActiveSnapshot(rows, list) && forall id :: id in rows ==> !rows[id].isActive
    ensures list == []
  {
    HeadsInList(list);
  }

  /** `process_alerts`: one snapshot of the active rules, one snapshot of the
      latest prices, then the loop. The delivery result of each alert email
      is ignored. */
  method ProcessAlerts(table: RuleTable, history: PriceHistory, users: map<nat, string>, mailer: Mailer)
    returns (checked: nat, triggered: nat, ghost snapshot: seq<Row>)
    requires table.Valid()
    modifies table, mailer
    ensures table.Valid() && table.nextId == old(table.nextId)
    ensures IsActiveSnapshot(old(table.rows), snapshot)
    ensures checked == Evaluate(snapshot, history.LatestPrices(), users).checked
    ensures triggered == Evaluate(snapshot, history.LatestPrices(), users).triggered
    ensures table.rows == Deactivate(old(table.rows), Evaluate(snapshot, history.LatestPrices(), users).deactivated)
    ensures mailer.outbox == old(mailer.outbox) + Evaluate(snapshot, history.LatestPrices(), users).emails
  {
    var rules := table.FindAllActive();
    var latest := history.LatestPrices();
    snapshot := Snapshot(rules);
    forall j | 0 <= j < |snapshot| ensures snapshot[j].id in table.rows {
      assert snapshot[j] in snapshot;
    }
    checked, triggered := ProcessSnapshot(rules, table, latest, users, mailer, snapshot);
  }

  /** The counters, the table and the outbox reflect the tally `t` of the
      rules handled so far, starting from `rows0` and `outbox0`. */
  predicate Accounted(t: Tally, checked: nat, triggered: nat, rows: map<nat, Row>, outbox: seq<Email>,
                      rows0: map<nat, Row>, outbox0: seq<Email>)
  {
    && checked == t.checked && triggered == t.triggered
    && rows == Deactivate(rows0, t.deactivated)
    && outbox == outbox0 + t.emails
  }

  /** The loop of `process_alerts` over the fetched rule objects. */
  method ProcessSnapshot(rules: seq<AlertRule>, table: RuleTable, latest: map<string, real>, users: map<nat, string>,
                         mailer: Mailer, ghost snapshot: seq<Row>)
    returns (checked: nat, triggered: nat)
    requires table.Valid()
    requires |snapshot| == |rules|
    requires forall j :: 0 <= j < |rules| ==> rules[j].AsRow() == snapshot[j]
    requires forall j :: 0 <= j < |snapshot| ==> snapshot[j].id in table.rows
    requires forall i, j :: 0 <= i < j < |rules| ==> rules[i] != rules[j]
    modifies table, mailer, set i | 0 <= i < |rules| :: rules[i]
    ensures table.Valid() && table.nextId == old(table.nextId)
    ensures Accounted(Evaluate(snapshot, latest, users), checked, triggered,
                      table.rows, mailer.outbox, old(table.rows), old(mailer.outbox))
  {
    ghost var rows0 := table.rows;
    ghost var outbox0 := mailer.outbox;
    ghost var tally := Tally(0, 0, {}, []);
    checked, triggered := 0, 0;
    var i := 0;
    while i < |rules|
      invariant 0 <= i <= |rules|
      invariant table.Valid() && table.nextId == old(table.nextId)
      invariant forall j :: i <= j < |rules| ==> rules[j].AsRow() == snapshot[j]
      invariant tally == Evaluate(snapshot[..i], latest, users)
      invariant Accounted(tally, checked, triggered, table.rows, mailer.outbox, rows0, outbox0)
    {
      EvaluateSnoc(snapshot, i, latest, users);
      checked, triggered := ProcessRule(rules[i], table, latest, users, mailer, checked, triggered, rows0, outbox0, tally, snapshot[i]);
      tally := Step(tally, snapshot[i], latest, users);
      i := i + 1;
    }
    assert snapshot[..|rules|] == snapshot;
  }

  /** The body of the loop of `process_alerts` for one rule: count it; skip it
      without a price or when it does not trigger; otherwise count it as
      triggered and, when its owner exists, send the alert email and
      deactivate the rule. */
  method ProcessRule(rule: AlertRule, table: RuleTable, latest: map<string, real>, users: map<nat, string>,
                     mailer: Mailer, checked: nat, triggered: nat,
                     ghost rows0: map<nat, Row>, ghost outbox0: seq<Email>, ghost tally: Tally, ghost row: Row)
    returns (checked': nat, triggered': nat)
    requires table.Valid() && rule.AsRow() == row && row.id in rows0
    requires Accounted(tally, checked, triggered, table.rows, mailer.outbox, rows0, outbox0)
    modifies rule, table, mailer
    ensures table.Valid() && table.nextId == old(table.nextId)
    ensures Accounted(Step(tally, row, latest, users), checked', triggered',
                      table.rows, mailer.outbox, rows0, outbox0)
  {
    ghost var next := Step(tally, row, latest, users);
    checked', triggered' := checked + 1, triggered;
    if rule.currency !in latest {
      return;
    }
    var currentPrice := latest[rule.currency];
    if !CheckRuleTriggered(rule.AsRow(), currentPrice) {
      return;
    }
    triggered' := triggered + 1;
    if rule.userId in users {
      assert next.emails == tally.emails + [AlertFor(row, latest, users)];
      var _ := mailer.SendAlertEmail(users[rule.userId], rule.currency, rule.condition, rule.threshold, currentPrice);
      DeactivateOneMore(rows0, tally.deactivated, rule.id);
      var _ := rule.Update(table, Deactivation);
    }
  }

  lemma EvaluateSnoc(snapshot: seq<Row>, i: nat, prices: map<string, real>, users: map<nat, string>)
    requires i < |snapshot|
    ensures Evaluate(snapshot[..i + 1], prices, users) == Step(Evaluate(snapshot[..i], prices, users), snapshot[i], prices, users)
  {
    assert snapshot[..i + 1][..i] == snapshot[..i];
  }
}
