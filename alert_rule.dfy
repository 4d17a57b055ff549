/** The alert-rule table and the rule objects read from it. A `RuleTable`
    holds the stored rows keyed by id; an `AlertRule` is the in-memory copy a
    query hands out, whose `Update` changes both its own fields and the stored
    row with the same id. */
module RuleStore {
  import opened Common

  /** One stored rule. `condition` is whatever string was stored: `>` and `<`
      are the meaningful ones. */
  datatype Row = Row(
    id: nat,
    userId: nat,
    currency: string,
    condition: string,
    threshold: real,
    isActive: bool,
    createdAt: int)

  /** The keyword arguments of `update`; `None` is an argument left out. */
  datatype Changes = Changes(
    currency: Option<string>,
    condition: Option<string>,
    threshold: Option<real>,
    isActive: Option<bool>)

  predicate HasChanges(c: Changes)
  {
    c.currency.Some? || c.condition.Some? || c.threshold.Some? || c.isActive.Some?
  }

  /** A row with the passed fields overwritten (a new currency upper-cased). */
  function Patch(r: Row, c: Changes): (p: Row)
    ensures IsUpper(r.currency) ==> IsUpper(p.currency)
    ensures c.currency.Some? ==> IsUpper(p.currency)
    ensures c.currency.Some? ==> p.currency == Upper(c.currency.value)
    ensures c.currency.None? ==> p.currency == r.currency
    ensures c.condition.Some? ==> p.condition == c.condition.value
    ensures c.condition.None? ==> p.condition == r.condition
    ensures c.threshold.Some? ==> p.threshold == c.threshold.value
    ensures c.threshold.None? ==> p.threshold == r.threshold
    ensures c.isActive.Some? ==> p.isActive == c.isActive.value
    ensures c.isActive.None? ==> p.isActive == r.isActive
  {
    r.(currency := if c.currency.Some? then Upper(c.currency.value) else r.currency,
       condition := if c.condition.Some? then c.condition.value else r.condition,
       threshold := if c.threshold.Some? then c.threshold.value else r.threshold,
       isActive := if c.isActive.Some? then c.isActive.value else r.isActive)
  }

  /** Patching never touches the identity, the owner or the creation time,
      and with nothing passed it changes nothing. */
  lemma PatchKeepsIdentity(r: Row, c: Changes)
    ensures Patch(r, c).id == r.id && Patch(r, c).userId == r.userId
    ensures Patch(r, c).createdAt == r.createdAt
    ensures !HasChanges(c) ==> Patch(r, c) == r
  {
  }

  /** Applying the same update twice is applying it once. */
  lemma PatchIdempotent(r: Row, c: Changes)
    ensures Patch(Patch(r, c), c) == Patch(r, c)
  {
    if c.currency.Some? {
      UpperIdempotent(c.currency.value);
    }
  }

  /** `UPDATE ... WHERE id = id`: only an existing row is rewritten. */
  function Written(rows: map<nat, Row>, id: nat, c: Changes): (w: map<nat, Row>)
    ensures w.Keys == rows.Keys
    ensures forall k :: k in rows && k != id ==> w[k] == rows[k]
    ensures id in rows ==> w[id] == Patch(rows[id], c)
  {
    if id in rows then rows[id := Patch(rows[id], c)] else rows
  }

  predicate DistinctIds(s: seq<Row>)
  {
    forall i, j :: 0 <= i < j < |s| ==> s[i].id != s[j].id
  }

  predicate NewestFirst(s: seq<Row>)
  {
    forall i, j :: 0 <= i < j < |s| ==> s[i].createdAt >= s[j].createdAt
  }

  /** Every stored rule has a positive threshold. */
  predicate ThresholdsPositive(rows: map<nat, Row>)
  {
    forall id :: id in rows ==> rows[id].threshold > 0.0
  }

  /** Each row is stored under its own id. */
  predicate KeyedById(rows: map<nat, Row>)
  {
    forall id :: id in rows ==> rows[id].id == id
  }

  /** Every row of `list` is a stored row, and no row appears twice. */
  ghost predicate StoredRows(rows: map<nat, Row>, list: seq<Row>)
  {
    && (forall r :: r in list ==> r.id in rows && rows[r.id] == r)
    && DistinctIds(list)
  }

  /** `list` is the result of `WHERE is_active = TRUE`: exactly the active
      rows, each once, in some order. */
  ghost predicate IsActiveSnapshot(rows: map<nat, Row>, list: seq<Row>)
  {
    && StoredRows(rows, list)
    && (forall r :: r in list ==> r.isActive)
    && (forall id :: id in rows && rows[id].isActive ==> rows[id] in list)
  }

  /** `list` is the result of `WHERE user_id = u ORDER BY created_at DESC`. */
  ghost predicate IsUserListing(rows: map<nat, Row>, u: nat, list: seq<Row>)
  {
    && StoredRows(rows, list)
    && (forall r :: r in list ==> r.userId == u)
    && (forall id :: id in rows && rows[id].userId == u ==> rows[id] in list)
    && NewestFirst(list)
  }

  /** Insert into a newest-first list before the first row that is not newer. */
  function InsertNewestFirst(s: seq<Row>, r: Row): (t: seq<Row>)
    ensures |t| == |s| + 1
    ensures forall x :: x in t <==> x in s || x == r
  {
    if s == [] then [r]
    else if r.createdAt >= s[0].createdAt then [r] + s
    else [s[0]] + InsertNewestFirst(s[1..], r)
  }

  lemma {:induction false} InsertKeepsNewestFirst(s: seq<Row>, r: Row)
    requires NewestFirst(s)
    ensures NewestFirst(InsertNewestFirst(s, r))
  {
    if s != [] && r.createdAt < s[0].createdAt {
      var tail := s[1..];
      InsertKeepsNewestFirst(tail, r);
      var t' := InsertNewestFirst(tail, r);
      forall j | 0 <= j < |t'| ensures s[0].createdAt >= t'[j].createdAt {
        assert t'[j] in t';
        if t'[j] != r {
          var k :| 0 <= k < |tail| && tail[k] == t'[j];
          assert s[k + 1] == tail[k];
        }
      }
      var t := [s[0]] + t';
      assert forall j :: 1 <= j < |t| ==> t[j] == t'[j - 1];
    }
  }

  lemma {:induction false} InsertKeepsDistinct(s: seq<Row>, r: Row)
    requires DistinctIds(s)
    requires forall x :: x in s ==> x.id != r.id
    ensures DistinctIds(InsertNewestFirst(s, r))
  {
    if s != [] && r.createdAt < s[0].createdAt {
      var tail := s[1..];
      assert forall x :: x in tail ==> x in s;
      InsertKeepsDistinct(tail, r);
      var t' := InsertNewestFirst(tail, r);
      forall j | 0 <= j < |t'| ensures s[0].id != t'[j].id {
        assert t'[j] in t';
        if t'[j] != r {
          var k :| 0 <= k < |tail| && tail[k] == t'[j];
          assert s[k + 1] == tail[k];
        }
      }
      var t := [s[0]] + t';
      assert forall j :: 1 <= j < |t| ==> t[j] == t'[j - 1];
    } else if s != [] {
      var t := [r] + s;
      assert forall j :: 1 <= j < |t| ==> t[j] == s[j - 1];
      assert forall j :: 1 <= j < |t| ==> t[j] in s;
    }
  }

  class AlertRule {
    var id: nat
    var userId: nat
    var currency: string
    var condition: string
    var threshold: real
    var isActive: bool
    var createdAt: int

    function AsRow(): Row
      reads this
    {
      Row(id, userId, currency, condition, threshold, isActive, createdAt)
    }

    constructor (r: Row)
      ensures AsRow() == r
    {
      id, userId, currency, condition := r.id, r.userId, r.currency, r.condition;
      threshold, isActive, createdAt := r.threshold, r.isActive, r.createdAt;
    }

    /** `AlertRule.update`: overwrite the passed fields of this object and, if
        any was passed, of the stored row with this id, and answer true. */
    method Update(table: RuleTable, c: Changes) returns (ok: bool)
      requires table.Valid()
      modifies this, table
      ensures ok && table.Valid() && table.nextId == old(table.nextId)
      ensures AsRow() == Patch(old(AsRow()), c)
      ensures table.rows == if HasChanges(c) then Written(old(table.rows), old(id), c) else old(table.rows)
      ensures old(id in table.rows && table.rows[id] == AsRow()) ==> id in table.rows && table.rows[id] == AsRow()
    {
      var updates: seq<string> := [];
      if c.currency.Some? {
        updates := updates + ["currency_symbol"];
        currency := Upper(c.currency.value);
      }
      if c.condition.Some? {
        updates := updates + ["condition"];
        condition := c.condition.value;
      }
      if c.threshold.Some? {
        updates := updates + ["threshold_price"];
        threshold := c.threshold.value;
      }
      if c.isActive.Some? {
        updates := updates + ["is_active"];
        isActive := c.isActive.value;
      }
      if |updates| > 0 {
        table.Write(id, c);
      }
      ok := true;
    }

    /** `AlertRule.delete`: remove the stored row with this id. */
    method Delete(table: RuleTable) returns (ok: bool)
      requires table.Valid()
      modifies table
      ensures ok && table.Valid() && table.nextId == old(table.nextId)
      ensures table.rows == old(table.rows) - {id}
    {
      table.Remove(id);
      ok := true;
    }
  }

  /** The rule objects for `rs`, one fresh object per row. */
  ghost function Snapshot(rules: seq<AlertRule>): (s: seq<Row>)
    reads set i | 0 <= i < |rules| :: rules[i]
    ensures |s| == |rules|
    ensures forall i :: 0 <= i < |rules| ==> s[i] == rules[i].AsRow()
  {
    if rules == [] then [] else Snapshot(rules[..|rules| - 1]) + [rules[|rules| - 1].AsRow()]
  }

  method NewRules(rs: seq<Row>) returns (rules: seq<AlertRule>)
    ensures Snapshot(rules) == rs
    ensures forall i :: 0 <= i < |rules| ==> fresh(rules[i])
    ensures forall i, j :: 0 <= i < j < |rules| ==> rules[i] != rules[j]
  {
    rules := [];
    var i := 0;
    while i < |rs|
      invariant 0 <= i <= |rs| && |rules| == i
      invariant forall j :: 0 <= j < i ==> fresh(rules[j]) && rules[j].AsRow() == rs[j]
      invariant forall j, k :: 0 <= j < k < i ==> rules[j] != rules[k]
    {
      var rule := new AlertRule(rs[i]);
      rules := rules + [rule];
      i := i + 1;
    }
  }

  class RuleTable {
    /** The `alert_rules` table keyed by id. */
    var rows: map<nat, Row>
    /** The next value of the id sequence. */
    var nextId: nat

    ghost predicate Valid()
      reads this
    {
      KeyedById(rows) && forall id :: id in rows ==> id < nextId
    }

    constructor ()
      ensures Valid() && rows == map[] && nextId == 1
    {
      rows := map[];
      nextId := 1;
    }

    /** `AlertRule.create`: insert a new active row stamped `now`, with an
        upper-cased currency, under a fresh id. */
    method Create(userId: nat, currency: string, condition: string, threshold: real, now: int)
      returns (rule: AlertRule)
      requires Valid()
      modifies this
      ensures Valid() && fresh(rule)
      ensures old(nextId) !in old(rows) && nextId == old(nextId) + 1
      ensures rule.AsRow() == Row(old(nextId), userId, Upper(currency), condition, threshold, true, now)
      ensures rows == old(rows)[old(nextId) := rule.AsRow()]
    {
      var row := Row(nextId, userId, Upper(currency), condition, threshold, true, now);
      rows := rows[nextId := row];
      nextId := nextId + 1;
      rule := new AlertRule(row);
    }

    /** `find_by_id`: a fresh object for the row, or null when absent. */
    method FindById(id: nat) returns (rule: AlertRule?)
      ensures rule == null <==> id !in rows
      ensures rule != null ==> fresh(rule) && rule.AsRow() == rows[id]
    {
      if id in rows {
        rule := new AlertRule(rows[id]);
      } else {
        rule := null;
      }
    }

    /** `find_all_active`. */
    method FindAllActive() returns (rules: seq<AlertRule>)
      requires Valid()
      ensures IsActiveSnapshot(rows, Snapshot(rules))
      ensures forall i :: 0 <= i < |rules| ==> fresh(rules[i])
      ensures forall i, j :: 0 <= i < j < |rules| ==> rules[i] != rules[j]
    {
      var remaining := rows.Keys;
      var active: seq<Row> := [];
      while remaining != {}
        invariant remaining <= rows.Keys
        invariant forall r :: r in active ==> r.id in rows && r.id !in remaining && rows[r.id] == r && r.isActive
        invariant forall id :: id in rows && id !in remaining && rows[id].isActive ==> rows[id] in active
        invariant DistinctIds(active)
        decreases remaining
      {
        var id :| id in remaining;
        if rows[id].isActive {
          active := active + [rows[id]];
        }
        remaining := remaining - {id};
      }
      rules := NewRules(active);
    }

    /** `find_by_user`: the user's rows, newest first. */
    method FindByUser(u: nat) returns (rules: seq<AlertRule>)
      requires Valid()
      ensures IsUserListing(rows, u, Snapshot(rules))
      ensures forall i :: 0 <= i < |rules| ==> fresh(rules[i])
      ensures forall i, j :: 0 <= i < j < |rules| ==> rules[i] != rules[j]
    {
      var remaining := rows.Keys;
      var listing: seq<Row> := [];
      while remaining != {}
        invariant remaining <= rows.Keys
        invariant forall r :: r in listing ==> r.id in rows && r.id !in remaining && rows[r.id] == r && r.userId == u
        invariant forall id :: id in rows && id !in remaining && rows[id].userId == u ==> rows[id] in listing
        invariant DistinctIds(listing) && NewestFirst(listing)
        decreases remaining
      {
        var id :| id in remaining;
        if rows[id].userId == u {
          InsertKeepsNewestFirst(listing, rows[id]);
          InsertKeepsDistinct(listing, rows[id]);
          listing := InsertNewestFirst(listing, rows[id]);
        }
        remaining := remaining - {id};
      }
      rules := NewRules(listing);
    }

    /** The `UPDATE` statement issued by `AlertRule.update`. */
    method Write(id: nat, c: Changes)
      requires Valid()
      modifies this
      ensures Valid() && nextId == old(nextId)
      ensures rows == Written(old(rows), id, c)
    {
      rows := Written(rows, id, c);
    }

    /** The `DELETE` statement issued by `AlertRule.delete`. */
    method Remove(id: nat)
      requires Valid()
      modifies this
      ensures Valid() && nextId == old(nextId)
      ensures rows == old(rows) - {id}
    {
      rows := rows - {id};
    }
  }
}
