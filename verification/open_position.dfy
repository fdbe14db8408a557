/**
 * The `OpenPosition` model object: a position of a trading signal, created
 * from an array of position data, whose stop loss and take profit can be
 * changed, and which can be deleted once it has been stored. The database
 * statements behind `insert`, `update` and `delete` are not modelled; a
 * position is persistent exactly when it has an id.
 */
module OpenPosition {
  import opened Wrappers

  /** The PHP values the fields and arguments can hold (NaN and INF are not modelled). */
  datatype Value =
    | Null
    | Bool(b: bool)
    | Int(i: int)
    | Float(x: real)
    | Str(s: string)

  /** The exceptions of this class. */
  datatype Error =
    | IllegalType(value: Value)            // `IllegalTypeException`
    | InvalidArgument                      // `InvalidArgumentException`

  /** The part of `Signal` a position reads. */
  datatype Signal = Signal(id: Option<int>)

  datatype Position = Position(
    id: Option<int>,                       // of `PersistableObject`
    modified: bool,                        // of `PersistableObject`
    ticket: Value,
    kind: Value,                           // `type`
    lots: Value,
    symbol: Value,
    openTime: Value,
    openPrice: Value,
    stopLoss: Value,
    takeProfit: Value,
    commission: Value,
    swap: Value,
    magicNumber: Value,
    comment: Value,
    signalId: Option<int>)

  predicate IsPersistent(p: Position)
  {
    p.id.Some?
  }

  /** `is_null($v) || is_int($v) || is_float($v)`. */
  predicate IsNumeric(v: Value)
  {
    v.Null? || v.Int? || v.Float?
  }

  /** `$value < 0` for an accepted value (`null < 0` is false). */
  predicate IsNegative(v: Value)
  {
    (v.Int? && v.i < 0) || (v.Float? && v.x < 0.0)
  }

  /** `if (!$value) $value = null;` */
  function Normalize(v: Value): (r: Value)
    requires IsNumeric(v)
    ensures r.Null? <==> v == Null || v == Int(0) || v == Float(0.0)
    ensures !r.Null? ==> r == v
  {
    match v
    case Int(i) => if i == 0 then Null else v
    case Float(x) => if x == 0.0 then Null else v
    case _ => Null
  }

  /**
   * The common body of `setStopLoss` and `setTakeProfit`: from the field's
   * current value and the `modified` flag to the new value and flag.
   */
  function Assign(p: Position, current: Value, value: Value): (r: Result<(Value, bool), Error>)
  {
    if !IsNumeric(value) then Err(IllegalType(value))
    else if IsNegative(value) then Err(InvalidArgument)
    else
      var v := Normalize(value);
      if v != current then Ok((v, p.modified || IsPersistent(p)))
      else Ok((current, p.modified))
  }

  function SetStopLoss(p: Position, value: Value): (r: Result<Position, Error>)
  {
    match Assign(p, p.stopLoss, value)
    case Err(e) => Err(e)
    case Ok((v, m)) => Ok(p.(stopLoss := v, modified := m))
  }

  function SetTakeProfit(p: Position, value: Value): (r: Result<Position, Error>)
  {
    match Assign(p, p.takeProfit, value)
    case Err(e) => Err(e)
    case Ok((v, m)) => Ok(p.(takeProfit := v, modified := m))
  }

  /**
   * What a setter promises: a value that is neither null nor a number is an
   * illegal type, a negative number an invalid argument; otherwise 0 and null
   * clear the field and any other value is stored, and the position becomes
   * modified exactly when it was already, or when it is persistent and the
   * stored value is not identical to the previous one.
   */
  predicate SetterOutcome(p: Position, current: Value, value: Value, r: Result<(Value, bool), Error>)
  {
    && (r == Err(IllegalType(value)) <==> !(value.Null? || value.Int? || value.Float?))
    && (r == Err(InvalidArgument) <==>
          (value.Int? && value.i < 0) || (value.Float? && value.x < 0.0))
    && (r.Ok? ==>
          && (r.value.0 == Null <==> value in {Null, Int(0), Float(0.0)})
          && (r.value.0 != Null ==> r.value.0 == value)
          && (r.value.1 <==> p.modified || (p.id.Some? && r.value.0 != current)))
  }

  lemma AssignOutcome(p: Position, current: Value, value: Value)
    ensures SetterOutcome(p, current, value, Assign(p, current, value))
  {
  }

  /** `setStopLoss`: the outcome above for the stop loss, and no other field changes. */
  lemma SetStopLossOutcome(p: Position, value: Value)
    ensures var r := SetStopLoss(p, value);
      && (r.Err? <==> Assign(p, p.stopLoss, value).Err?)
      && (r.Err? ==> SetterOutcome(p, p.stopLoss, value, Err(r.error)))
      && (r.Ok? ==> SetterOutcome(p, p.stopLoss, value, Ok((r.value.stopLoss, r.value.modified))))
      && (r.Ok? ==> r.value.(stopLoss := p.stopLoss, modified := p.modified) == p)
  {
    AssignOutcome(p, p.stopLoss, value);
  }

  /** `setTakeProfit`: the outcome above for the take profit, and no other field changes. */
  lemma SetTakeProfitOutcome(p: Position, value: Value)
    ensures var r := SetTakeProfit(p, value);
      && (r.Err? <==> Assign(p, p.takeProfit, value).Err?)
      && (r.Err? ==> SetterOutcome(p, p.takeProfit, value, Err(r.error)))
      && (r.Ok? ==> SetterOutcome(p, p.takeProfit, value, Ok((r.value.takeProfit, r.value.modified))))
      && (r.Ok? ==> r.value.(takeProfit := p.takeProfit, modified := p.modified) == p)
  {
    AssignOutcome(p, p.takeProfit, value);
  }

  /** Setting the value the field already holds (after normalisation) changes nothing. */
  lemma SetStopLossUnchanged(p: Position, value: Value)
    requires IsNumeric(value) && !IsNegative(value)
    requires Normalize(value) == p.stopLoss
    ensures SetStopLoss(p, value) == Ok(p)
  {
  }

  /** Setting the same stop loss twice is the same as setting it once. */
  lemma SetStopLossIdempotent(p: Position, value: Value)
    ensures SetStopLoss(p, value).Ok? ==>
      SetStopLoss(SetStopLoss(p, value).value, value) == SetStopLoss(p, value)
  {
  }

  lemma SetTakeProfitIdempotent(p: Position, value: Value)
    ensures SetTakeProfit(p, value).Ok? ==>
      SetTakeProfit(SetTakeProfit(p, value).value, value) == SetTakeProfit(p, value)
  {
  }

  /** The two setters touch different fields, so their order does not matter. */
  lemma SettersCommute(p: Position, sl: Value, tp: Value)
    requires SetStopLoss(p, sl).Ok? && SetTakeProfit(p, tp).Ok?
    ensures SetStopLoss(p, sl).value.stopLoss == SetStopLoss(SetTakeProfit(p, tp).value, sl).value.stopLoss
    ensures SetTakeProfit(SetStopLoss(p, sl).value, tp) ==
      SetStopLoss(SetTakeProfit(p, tp).value, sl)
  {
  }

  /** `MyFX::fxtDate($time)`, a conversion of another class. */
  type FxtDate = Value -> Value

  /**
   * `$data[$key]`: a missing key reads as null. `isSet($data[$key]) ?
   * $data[$key] : null` reads the same.
   */
  function Field(data: map<string, Value>, key: string): Value
  {
    if key in data then data[key] else Null
  }

  /** `OpenPosition::create($signal, $data)`. */
  function Create(signal: Signal, data: map<string, Value>, fxtDate: FxtDate): (r: Result<Position, Error>)
    ensures r.Err? <==> signal.id.None?
    ensures r.Err? ==> r.error == InvalidArgument
    ensures r.Ok? ==> r.value.id.None? && !r.value.modified && r.value.signalId == signal.id
    ensures r.Ok? ==>
      && r.value.stopLoss == (if "stoploss" in data then data["stoploss"] else Null)
      && r.value.takeProfit == (if "takeprofit" in data then data["takeprofit"] else Null)
      && r.value.magicNumber == (if "magicnumber" in data then data["magicnumber"] else Null)
      && r.value.comment == (if "comment" in data then data["comment"] else Null)
  {
    if signal.id.None? then Err(InvalidArgument)
    else
      var isSet := (key: string) => key in data && data[key] != Null;
      Ok(Position(
        id := None,
        modified := false,
        ticket := Field(data, "ticket"),
        kind := Field(data, "type"),
        lots := Field(data, "lots"),
        symbol := Field(data, "symbol"),
        openTime := fxtDate(Field(data, "opentime")),
        openPrice := Field(data, "openprice"),
        stopLoss := if isSet("stoploss") then data["stoploss"] else Null,
        takeProfit := if isSet("takeprofit") then data["takeprofit"] else Null,
        commission := Field(data, "commission"),
        swap := Field(data, "swap"),
        magicNumber := if isSet("magicnumber") then data["magicnumber"] else Null,
        comment := if isSet("comment") then data["comment"] else Null,
        signalId := signal.id))
  }

  /** `$position->delete()`: the row is removed and the position loses its id. */
  function Delete(p: Position): (r: Result<Position, Error>)
    ensures r.Err? <==> !IsPersistent(p)
    ensures r.Err? ==> r.error == InvalidArgument
    ensures r.Ok? ==> !IsPersistent(r.value) && r.value == p.(id := None)
  {
    if !IsPersistent(p) then Err(InvalidArgument)
    else Ok(p.(id := None))
  }

  /**
   * A freshly created position is not yet stored: it cannot be deleted, and
   * changing its stop loss never marks it modified.
   */
  lemma CreatedIsTransient(signal: Signal, data: map<string, Value>, fxtDate: FxtDate, value: Value)
    requires Create(signal, data, fxtDate).Ok?
    ensures Delete(Create(signal, data, fxtDate).value).Err?
    ensures var p := Create(signal, data, fxtDate).value;
      SetStopLoss(p, value).Ok? ==> !SetStopLoss(p, value).value.modified
  {
  }

  /** After a delete the position is transient again: a second delete fails. */
  lemma DeleteOnce(p: Position)
    requires Delete(p).Ok?
    ensures Delete(Delete(p).value).Err?
  {
  }
}
