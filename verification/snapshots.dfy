/** Audit snapshots: the before/after payloads written with admin actions are
    built by reading a list of attribute names off a row. */
module Snapshots {
  import opened Wrappers

  /** `snapshot(model, fields)`: a dictionary from each listed field to the
      row's value for it. Reading an attribute the row does not have raises,
      which is modelled as `None`. */
  function Snapshot<V>(row: map<string, V>, fields: seq<string>): (r: Option<map<string, V>>)
    ensures r.Some? <==> forall i :: 0 <= i < |fields| ==> fields[i] in row
    ensures r.Some? ==> r.value.Keys == set i | 0 <= i < |fields| :: fields[i]
    ensures r.Some? ==> forall f :: f in r.value ==> f in row && r.value[f] == row[f]
  {
    if |fields| == 0 then Some(map[])
    else if fields[0] !in row then None
    else
      match Snapshot(row, fields[1..])
      case None => None
      case Some(rest) => Some(rest[fields[0] := row[fields[0]]])
  }
}
