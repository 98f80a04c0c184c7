/** Spreadsheet records as the xlsx library's `sheet_to_json(ws, { defval: '' })`
    hands them to api/server.js, and JavaScript's `??` over their keys. */
module Cells {

  /** A JavaScript number as `Number(...)` produces it. */
  datatype JsNumber = Finite(value: real) | NaN | Infinite(negative: bool)

  /** One cell value. An empty cell arrives as `Text("")` because of the
      `defval: ''` option; `Null` is JavaScript's `null`. A key missing from a
      record is `undefined`. */
  datatype Cell = Text(text: string) | Number(number: real) | Boolean(flag: bool) | Null

  /** One spreadsheet row: column header to cell. */
  type Record = map<string, Cell>

  /** JavaScript's `String(...)` and `Number(...)` applied to a cell. Their full
      conversion tables (number formatting, numeric parsing) are not modelled;
      the projection is stated for any pair of conversions. */
  datatype Coercion = Coercion(toString: Cell -> string, toNumber: Cell -> JsNumber)

  /** The two facts about JavaScript's conversions the model relies on:
      `String` leaves a string alone and `Number` leaves a number alone. */
  ghost predicate IsJsCoercion(co: Coercion) {
    && (forall s :: co.toString(Text(s)) == s)
    && (forall x :: co.toNumber(Number(x)) == Finite(x))
  }

  /** `r[k]` is neither `undefined` nor `null`, so `??` stops at it. An empty
      string is defined. */
  predicate Defined(r: Record, k: string) {
    k in r && r[k] != Null
  }

  /** `r[keys[0]] ?? r[keys[1]] ?? ... ?? fallback`: the value under the first
      key that is defined, else the fallback. */
  function Coalesce(r: Record, keys: seq<string>, fallback: Cell): (c: Cell)
    ensures (forall i | 0 <= i < |keys| :: !Defined(r, keys[i])) ==> c == fallback
    ensures forall i | 0 <= i < |keys| && Defined(r, keys[i]) ::
              (forall j | 0 <= j < i :: !Defined(r, keys[j])) ==> c == r[keys[i]]
  {
    if |keys| == 0 then fallback
    else if Defined(r, keys[0]) then r[keys[0]]
    else
      var rest := Coalesce(r, keys[1..], fallback);
      assert forall i | 1 <= i < |keys| :: keys[i] == keys[1..][i - 1];
      rest
  }

  /** Only the keys of the chain matter: a record that agrees with `r` on them
      gives the same value. */
  lemma {:induction false} CoalesceDependsOnlyOnKeys(r: Record, r': Record, keys: seq<string>, fallback: Cell)
    requires forall i | 0 <= i < |keys| ::
               Defined(r, keys[i]) == Defined(r', keys[i]) && (Defined(r, keys[i]) ==> r[keys[i]] == r'[keys[i]])
    ensures Coalesce(r, keys, fallback) == Coalesce(r', keys, fallback)
  {
    if |keys| > 0 && !Defined(r, keys[0]) {
      CoalesceDependsOnlyOnKeys(r, r', keys[1..], fallback);
    }
  }
}
