/**
 * HelperGetKeyByValue: the name under which a constant table (object types,
 * property identifiers) holds a number, found by scanning its keys in order.
 */
module Lookup {
  import opened Wrappers

  /**
   * The first key, in key order, whose value is strictly equal to `value`,
   * or nothing when no entry holds it. `entries` lists the table's keys in
   * the order `Object.keys` gives them, each with its value.
   */
  function KeyByValue(entries: seq<(string, nat)>, value: nat): (r: Option<string>)
    ensures r.None? <==> forall i :: 0 <= i < |entries| ==> entries[i].1 != value
    ensures r.Some? ==>
      exists i :: 0 <= i < |entries| && entries[i] == (r.value, value)
                  && forall j :: 0 <= j < i ==> entries[j].1 != value
  {
    if entries == [] then None
    else if entries[0].1 == value then Some(entries[0].0)
    else
      var rest := KeyByValue(entries[1..], value);
      assert forall i :: 0 < i < |entries| ==> entries[i] == entries[1..][i - 1];
      rest
  }
}
