/**
 * Reference data of `updateM1Bars`: the `$indizes` table (which instruments
 * each index needs, with their digits), the on-the-fly digits rule, and the
 * index calculators the script actually defines.
 */
module Baskets {
  import opened Wrappers
  import Php

  datatype Member = Member(symbol: string, digits: int)

  /** The instruments of the LiteForex baskets, in table order. */
  const LfxBasket: seq<Member> := [
    Member("AUDUSD", 5), Member("EURUSD", 5), Member("GBPUSD", 5),
    Member("USDCAD", 5), Member("USDCHF", 5), Member("USDJPY", 3)
  ]

  /** `$indizes[$index]`: the instruments an index needs, in table order; None for an unknown index. */
  function Basket(index: string): Option<seq<Member>>
  {
    match index
    case "AUDFX6" => Some([Member("AUDCAD", 5), Member("AUDCHF", 5), Member("AUDJPY", 3), Member("AUDUSD", 5), Member("EURAUD", 5), Member("GBPAUD", 5)])
    case "CADFX6" => Some([Member("AUDCAD", 5), Member("CADCHF", 5), Member("CADJPY", 3), Member("EURCAD", 5), Member("GBPCAD", 5), Member("USDCAD", 5)])
    case "CHFFX6" => Some([Member("AUDCHF", 5), Member("CADCHF", 5), Member("CHFJPY", 3), Member("EURCHF", 5), Member("GBPCHF", 5), Member("USDCHF", 5)])
    case "EURFX6" => Some([Member("EURAUD", 5), Member("EURCAD", 5), Member("EURCHF", 5), Member("EURGBP", 5), Member("EURJPY", 3), Member("EURUSD", 5)])
    case "GBPFX6" => Some([Member("EURGBP", 5), Member("GBPAUD", 5), Member("GBPCAD", 5), Member("GBPCHF", 5), Member("GBPJPY", 3), Member("GBPUSD", 5)])
    case "JPYFX6" => Some([Member("AUDJPY", 3), Member("CADJPY", 3), Member("CHFJPY", 3), Member("EURJPY", 3), Member("GBPJPY", 3), Member("USDJPY", 3)])
    case "USDFX6" => Some([Member("AUDUSD", 5), Member("EURUSD", 5), Member("GBPUSD", 5), Member("USDCAD", 5), Member("USDCHF", 5), Member("USDJPY", 3)])
    case "AUDLFX" => Some(LfxBasket)
    case "CADLFX" => Some(LfxBasket)
    case "CHFLFX" => Some(LfxBasket)
    case "EURLFX" => Some(LfxBasket)
    case "GBPLFX" => Some(LfxBasket)
    case "JPYLFX" => Some(LfxBasket)
    case "NZDLFX" => Some(LfxBasket + [Member("NZDUSD", 5)])
    case "USDLFX" => Some(LfxBasket)
    case _ => None
  }

  function Symbols(members: seq<Member>): (s: seq<string>)
    ensures |s| == |members|
    ensures forall i :: 0 <= i < |members| ==> s[i] == members[i].symbol
  {
    if members == [] then [] else [members[0].symbol] + Symbols(members[1..])
  }

  /** Line 101: `strEndsWith($symbol, 'JPY') ? 3 : 5`. */
  function DigitsOf(symbol: string): (d: int)
    ensures d == 3 || d == 5
    ensures d == 3 <==> Php.EndsWith(symbol, "JPY")
  {
    if Php.EndsWith(symbol, "JPY") then 3 else 5
  }

  predicate FollowsDigitsRule(members: seq<Member>)
  {
    forall j :: 0 <= j < |members| ==> members[j].digits == DigitsOf(members[j].symbol)
  }

  /** The digits written into the table agree with the rule the script applies on the fly. */
  lemma TableFollowsDigitsRule(index: string)
    requires Basket(index).Some?
    ensures FollowsDigitsRule(Basket(index).value)
  {
    var m := Basket(index).value;
    if index in {"AUDFX6", "CADFX6", "CHFFX6"} {
      FirstFx6FollowDigitsRule(index);
    } else if index in {"EURFX6", "GBPFX6", "JPYFX6", "USDFX6"} {
      LastFx6FollowDigitsRule(index);
    } else {
      RowFollowsDigitsRule(LfxBasket + [Member("NZDUSD", 5)]);
      assert m == LfxBasket || m == LfxBasket + [Member("NZDUSD", 5)];
      if m == LfxBasket {
        assert forall j :: 0 <= j < |m| ==> m[j] == (LfxBasket + [Member("NZDUSD", 5)])[j];
      }
    }
  }

  /** A row of six-letter pairs whose digits are 3 exactly for the yen-quoted ones. */
  lemma RowFollowsDigitsRule(m: seq<Member>)
    requires forall j :: 0 <= j < |m| ==>
      |m[j].symbol| == 6 && m[j].digits == (if m[j].symbol[3..] == "JPY" then 3 else 5)
    ensures FollowsDigitsRule(m)
  {
    forall j | 0 <= j < |m|
      ensures m[j].digits == DigitsOf(m[j].symbol)
    {
      PairDigits(m[j].symbol);
    }
  }

  lemma FirstFx6FollowDigitsRule(index: string)
    requires index in {"AUDFX6", "CADFX6", "CHFFX6"}
    ensures FollowsDigitsRule(Basket(index).value)
  {
    RowFollowsDigitsRule(Basket(index).value);
  }

  lemma LastFx6FollowDigitsRule(index: string)
    requires index in {"EURFX6", "GBPFX6", "JPYFX6", "USDFX6"}
    ensures FollowsDigitsRule(Basket(index).value)
  {
    RowFollowsDigitsRule(Basket(index).value);
  }

  /** For a six-letter pair name the rule only looks at the quote currency. */
  lemma PairDigits(symbol: string)
    requires |symbol| == 6
    ensures DigitsOf(symbol) == if symbol[3..] == "JPY" then 3 else 5
  {
  }

  /**
   * `'calculate'.$index`: the instruments each defined calculator reads, in
   * the order it reads them. The FX6 indexes other than USDFX6 have no
   * calculator in the script.
   */
  function CalculatorInputs(index: string): Option<seq<string>>
  {
    if index == "USDFX6" then Some(Symbols(LfxBasket))
    else if index in {"AUDLFX", "CADLFX", "CHFLFX", "EURLFX", "GBPLFX", "JPYLFX", "USDLFX"} then Some(Symbols(LfxBasket))
    else if index == "NZDLFX" then Some(Symbols(LfxBasket) + ["NZDUSD"])
    else None
  }

  /**
   * Every defined calculator reads exactly the instruments of its basket, in
   * table order, and walks the first of them, AUDUSD.
   */
  lemma CalculatorsReadTheirBasket(index: string)
    requires CalculatorInputs(index).Some?
    ensures Basket(index).Some?
    ensures CalculatorInputs(index).value == Symbols(Basket(index).value)
    ensures CalculatorInputs(index).value[0] == "AUDUSD"
  {
    if index == "NZDLFX" {
      assert Basket(index) == Some(LfxBasket + [Member("NZDUSD", 5)]);
      assert Symbols(LfxBasket + [Member("NZDUSD", 5)]) == Symbols(LfxBasket) + ["NZDUSD"];
    } else if index == "USDFX6" {
      assert Basket(index) == Some(LfxBasket);
    } else {
      assert Basket(index) == Some(LfxBasket);
    }
  }
}
