/** The rule-management handlers: the validation ladder of the create and
    edit forms, and the ownership guard in front of edit, delete and toggle.
    Form fields arrive as strings; the outcome of `float(threshold)` is an
    input (`None` when the conversion raises). The current user is given by
    id; session handling and page rendering are not modelled. */
module AlertViews {
  import opened Common
  import opened CoinGecko
  import opened RuleStore

  /** Why a form was turned away; each maps to one flashed message. */
  datatype FormError =
    | MissingFields        // "Please fill in all fields"
    | UnsupportedCurrency  // "Unsupported cryptocurrency"
    | InvalidCondition     // "Invalid condition type"
    | InvalidPrice         // "Please enter a valid price"
    | NotFound             // "Alert rule not found"

  /** The fields of a create form that passed validation. */
  datatype NewRule = NewRule(currency: string, condition: string, threshold: real)

  /** The threshold converted and is strictly positive. */
  predicate PositivePrice(parsed: Option<real>)
  {
    parsed.Some? && parsed.value > 0.0
  }

  predicate ValidCondition(condition: string)
  {
    condition == ">" || condition == "<"
  }

  predicate Filled(currency: string, condition: string, threshold: string)
  {
    currency != "" && condition != "" && threshold != ""
  }

  /** The guard ladder of `create_alert`, in its order, on the upper-cased
      currency: each error is reported exactly when every earlier check
      passed and this one fails. */
  function ValidateCreate(currency: string, condition: string, threshold: string, parsed: Option<real>)
    : (r: Result<NewRule, FormError>)
    ensures r.Ok? <==> Filled(currency, condition, threshold) && Upper(currency) in Symbols()
                       && ValidCondition(condition) && PositivePrice(parsed)
    ensures r.Ok? ==> r.value == NewRule(Upper(currency), condition, parsed.value)
    ensures r == Err(MissingFields) <==> !Filled(currency, condition, threshold)
    ensures r == Err(UnsupportedCurrency) <==> Filled(currency, condition, threshold) && Upper(currency) !in Symbols()
    ensures r == Err(InvalidCondition) <==>
      Filled(currency, condition, threshold) && Upper(currency) in Symbols() && !ValidCondition(condition)
    ensures r == Err(InvalidPrice) <==>
      Filled(currency, condition, threshold) && Upper(currency) in Symbols() && ValidCondition(condition)
      && !PositivePrice(parsed)
  {
    var cur := Upper(currency);
    if cur == "" || condition == "" || threshold == "" then Err(MissingFields)
    else if cur !in Symbols() then Err(UnsupportedCurrency)
    else if !ValidCondition(condition) then Err(InvalidCondition)
    else if !PositivePrice(parsed) then Err(InvalidPrice)
    else Ok(NewRule(cur, condition, parsed.value))
  }

  /** A rule that every check of the create form would accept. */
  predicate Sound(r: Row)
  {
    r.currency in Symbols() && IsUpper(r.currency) && ValidCondition(r.condition) && r.threshold > 0.0
  }

  /** The guard ladder of `edit_alert`: only non-emptiness and a positive
      threshold. Accepted forms become an update of all four fields, with
      the checkbox on exactly when it was sent as "on". */
  function ValidateEdit(currency: string, condition: string, threshold: string, parsed: Option<real>,
                        isActive: Option<string>): (r: Result<Changes, FormError>)
    ensures r.Ok? <==> Filled(currency, condition, threshold) && PositivePrice(parsed)
    ensures r == Err(MissingFields) <==> !Filled(currency, condition, threshold)
    ensures r == Err(InvalidPrice) <==> Filled(currency, condition, threshold) && !PositivePrice(parsed)
    ensures r.Ok? ==> r.value == Changes(Some(Upper(currency)), Some(condition), Some(parsed.value),
                                         Some(isActive == Some("on")))
  {
    var cur := Upper(currency);
    if cur == "" || condition == "" || threshold == "" then Err(MissingFields)
    else if !PositivePrice(parsed) then Err(InvalidPrice)
    else Ok(Changes(Some(cur), Some(condition), Some(parsed.value), Some(isActive == Some("on"))))
  }

  /** Every rule the create form accepts passes all of its checks. */
  lemma CreatedRuleSound(currency: string, condition: string, threshold: string, parsed: Option<real>,
                         id: nat, userId: nat, now: int)
    requires ValidateCreate(currency, condition, threshold, parsed).Ok?
    ensures var v := ValidateCreate(currency, condition, threshold, parsed).value;
      Sound(Row(id, userId, v.currency, v.condition, v.threshold, true, now))
  {
  }

  /** The edit form does not re-check the currency or the condition: a form
      the create form refuses as unsupported is accepted by the edit form
      and, once applied, stores a rule no check would accept. */
  lemma EditSkipsCurrencyAndCondition(r: Row)
    requires Sound(r)
    ensures ValidateCreate("doge2", "=", "5", Some(5.0)) == Err(UnsupportedCurrency)
    ensures ValidateEdit("doge2", "=", "5", Some(5.0), None).Ok?
    ensures !Sound(Patch(r, ValidateEdit("doge2", "=", "5", Some(5.0), None).value))
  {
    assert Upper("doge2") == "DOGE2";
    assert "DOGE2" !in Symbols() by {
      assert forall c :: c in CoinIds ==> CoinIds[c] != "DOGE2";
    }
  }

  /** An accepted edit keeps every stored threshold positive. */
  lemma EditKeepsThresholdsPositive(rows: map<nat, Row>, id: nat, currency: string, condition: string,
                                    threshold: string, parsed: Option<real>, isActive: Option<string>)
    requires ThresholdsPositive(rows)
    requires ValidateEdit(currency, condition, threshold, parsed, isActive).Ok?
    ensures ThresholdsPositive(Written(rows, id, ValidateEdit(currency, condition, threshold, parsed, isActive).value))
  {
  }

  /** The ownership guard: the rule exists and belongs to the current user. */
  predicate Owned(rows: map<nat, Row>, userId: nat, alertId: nat)
  {
    alertId in rows && rows[alertId].userId == userId
  }

  /** `list_alerts`: the current user's rules, newest first. */
  method ListAlerts(table: RuleTable, userId: nat) returns (rules: seq<AlertRule>)
    requires table.Valid()
    ensures IsUserListing(table.rows, userId, Snapshot(rules))
  {
    rules := table.FindByUser(userId);
  }

  /** `create_alert` (POST): on a form that passes the ladder, exactly one new
      active rule for the current user with the validated fields; otherwise
      nothing is stored. */
  method CreateAlert(table: RuleTable, userId: nat, currency: string, condition: string, threshold: string,
                     parsed: Option<real>, now: int)
    returns (r: Result<Row, FormError>)
    requires table.Valid()
    modifies table
    ensures table.Valid()
    ensures r.Err? ==> ValidateCreate(currency, condition, threshold, parsed) == Err(r.error)
    ensures r.Err? ==> table.rows == old(table.rows) && table.nextId == old(table.nextId)
    ensures r.Ok? <==> ValidateCreate(currency, condition, threshold, parsed).Ok?
    ensures r.Ok? ==>
      var v := ValidateCreate(currency, condition, threshold, parsed).value;
      && r.value == Row(old(table.nextId), userId, v.currency, v.condition, v.threshold, true, now)
      && Sound(r.value)
      && old(table.nextId) !in old(table.rows)
      && table.rows == old(table.rows)[r.value.id := r.value]
    ensures ThresholdsPositive(old(table.rows)) ==> ThresholdsPositive(table.rows)
  {
    var v := ValidateCreate(currency, condition, threshold, parsed);
    if v.Err? {
      return Err(v.error);
    }
    var rule := table.Create(userId, v.value.currency, v.value.condition, v.value.threshold, now);
    r := Ok(rule.AsRow());
    UpperIdempotent(v.value.currency);
    CreatedRuleSound(currency, condition, threshold, parsed, old(table.nextId), userId, now);
  }

  /** `edit_alert` (POST): behind the ownership guard and the edit ladder,
      one update of all four fields of the stored rule. */
  method EditAlert(table: RuleTable, userId: nat, alertId: nat, currency: string, condition: string,
                   threshold: string, parsed: Option<real>, isActive: Option<string>)
    returns (r: Result<Row, FormError>)
    requires table.Valid()
    modifies table
    ensures table.Valid() && table.nextId == old(table.nextId)
    ensures !Owned(old(table.rows), userId, alertId) ==> r == Err(NotFound) && table.rows == old(table.rows)
    ensures Owned(old(table.rows), userId, alertId) && ValidateEdit(currency, condition, threshold, parsed, isActive).Err? ==>
      r == Err(ValidateEdit(currency, condition, threshold, parsed, isActive).error) && table.rows == old(table.rows)
    ensures Owned(old(table.rows), userId, alertId) && ValidateEdit(currency, condition, threshold, parsed, isActive).Ok? ==>
      var row := Patch(old(table.rows)[alertId], ValidateEdit(currency, condition, threshold, parsed, isActive).value);
      r == Ok(row) && table.rows == old(table.rows)[alertId := row]
    ensures ThresholdsPositive(old(table.rows)) ==> ThresholdsPositive(table.rows)
  {
    var alert := table.FindById(alertId);
    if alert == null || alert.userId != userId {
      return Err(NotFound);
    }
    var v := ValidateEdit(currency, condition, threshold, parsed, isActive);
    if v.Err? {
      return Err(v.error);
    }
    var _ := alert.Update(table, v.value);
    r := Ok(alert.AsRow());
  }

  /** `delete_alert`: behind the ownership guard, remove the rule. */
  method DeleteAlert(table: RuleTable, userId: nat, alertId: nat) returns (found: bool)
    requires table.Valid()
    modifies table
    ensures table.Valid() && table.nextId == old(table.nextId)
    ensures found <==> Owned(old(table.rows), userId, alertId)
    ensures table.rows == if found then old(table.rows) - {alertId} else old(table.rows)
    ensures ThresholdsPositive(old(table.rows)) ==> ThresholdsPositive(table.rows)
  {
    var alert := table.FindById(alertId);
    if alert == null || alert.userId != userId {
      return false;
    }
    var _ := alert.Delete(table);
    found := true;
  }

  /** `toggle_alert`: behind the ownership guard, flip the active flag and
      report the new state; every other field is left as it was. */
  method ToggleAlert(table: RuleTable, userId: nat, alertId: nat) returns (status: Option<bool>)
    requires table.Valid()
    modifies table
    ensures table.Valid() && table.nextId == old(table.nextId)
    ensures status.Some? <==> Owned(old(table.rows), userId, alertId)
    ensures status.None? ==> table.rows == old(table.rows)
    ensures status.Some? ==>
      && status.value == !old(table.rows)[alertId].isActive
      && table.rows == old(table.rows)[alertId := old(table.rows)[alertId].(isActive := status.value)]
    ensures ThresholdsPositive(old(table.rows)) ==> ThresholdsPositive(table.rows)
  {
    var alert := table.FindById(alertId);
    if alert == null || alert.userId != userId {
      return None;
    }
    var _ := alert.Update(table, Changes(None, None, None, Some(!alert.isActive)));
    status := Some(alert.isActive);
  }
}
