/** The label-preference rule for a permissible value (sr_audit.py:34 and
    sr_audit.py:41): its `value`, else its `attributeValue`, else its id in
    decimal, where "else" means Python truthiness, so an empty string falls
    through to the next choice. */
module Labels {
  import opened Wrappers
  import opened Text

  /** One permissible value as the server returns it; a field that is
      absent or JSON null is `None`. */
  datatype PvEntry = PvEntry(id: int, value: Option<string>, attributeValue: Option<string>)

  /** Python truthiness of an optional string. */
  predicate Truthy(o: Option<string>)
  {
    o.Some? && o.value != ""
  }

  /** `pv.get("value") or pv.get("attributeValue") or str(pv["id"])`. */
  function Label(pv: PvEntry): (r: string)
    ensures r != ""
    ensures r == pv.value.GetOr("") || r == pv.attributeValue.GetOr("") || r == Decimal(pv.id)
  {
    if Truthy(pv.value) then pv.value.value
    else if Truthy(pv.attributeValue) then pv.attributeValue.value
    else Decimal(pv.id)
  }

  /** The first truthy element of a list of choices, as a chain of `or`
      evaluates it; None when all of them are falsy. */
  function FirstTruthy(choices: seq<Option<string>>): (r: Option<string>)
    ensures r.Some? ==> Truthy(r) && r in choices
    ensures r.None? <==> forall k :: 0 <= k < |choices| ==> !Truthy(choices[k])
  {
    if choices == [] then None
    else if Truthy(choices[0]) then choices[0]
    else FirstTruthy(choices[1..])
  }

  /** The label is the first truthy choice of value, attributeValue and the
      id in decimal; each later choice is used exactly when all earlier ones
      are falsy. */
  lemma LabelPreference(pv: PvEntry)
    ensures FirstTruthy([pv.value, pv.attributeValue, Some(Decimal(pv.id))]) == Some(Label(pv))
    ensures Label(pv) == pv.value.GetOr("") <== Truthy(pv.value)
    ensures !Truthy(pv.value) && Truthy(pv.attributeValue)
            ==> Label(pv) == pv.attributeValue.GetOr("")
    ensures !Truthy(pv.value) && !Truthy(pv.attributeValue) ==> Label(pv) == Decimal(pv.id)
  {
    var cs := [pv.value, pv.attributeValue, Some(Decimal(pv.id))];
    assert cs[1..] == [pv.attributeValue, Some(Decimal(pv.id))];
    assert cs[1..][1..] == [Some(Decimal(pv.id))];
    var last := FirstTruthy(cs[1..][1..]);
    assert last == Some(Decimal(pv.id)) by {
      assert Truthy(Some(Decimal(pv.id)));
    }
    assert FirstTruthy(cs[1..]) == if Truthy(pv.attributeValue) then pv.attributeValue else last;
  }

  /** An empty `value` falls through to `attributeValue`, and an empty
      `attributeValue` to the id. */
  lemma EmptyFallsThrough()
    ensures Label(PvEntry(12, Some(""), Some("Blood"))) == "Blood"
    ensures Label(PvEntry(12, Some(""), Some(""))) == "12"
    ensures Label(PvEntry(12, None, None)) == "12"
  {
    assert Decimal(12) == "12" by {
      assert NatDecimal(1) == "1";
    }
  }

  /** The dict comprehension of fetch_pvs (sr_audit.py:34): each entry's id
      maps to its label; a later entry with the same id overwrites an
      earlier one. */
  function Catalog(entries: seq<PvEntry>): map<int, string>
  {
    if entries == [] then map[]
    else
      var last := entries[|entries| - 1];
      Catalog(entries[..|entries| - 1])[last.id := Label(last)]
  }

  /** The catalog's keys are exactly the ids of the entries. */
  lemma {:induction false} CatalogKeys(entries: seq<PvEntry>, id: int)
    ensures id in Catalog(entries) <==> exists j :: 0 <= j < |entries| && entries[j].id == id
  {
    if entries != [] {
      var n := |entries| - 1;
      CatalogKeys(entries[..n], id);
      if id in Catalog(entries[..n]) {
        var j :| 0 <= j < n && entries[..n][j].id == id;
        assert entries[j].id == id;
      }
    }
  }

  /** Each id maps to the label of the LAST entry carrying it, so no label
      in the catalog is empty. */
  lemma {:induction false} CatalogLast(entries: seq<PvEntry>, j: nat)
    requires j < |entries|
    requires forall k :: j < k < |entries| ==> entries[k].id != entries[j].id
    ensures entries[j].id in Catalog(entries)
    ensures Catalog(entries)[entries[j].id] == Label(entries[j]) != ""
  {
    var n := |entries| - 1;
    if j < n {
      var init := entries[..n];
      assert forall k :: j < k < |init| ==> init[k] == entries[k];
      CatalogLast(init, j);
    }
  }
}
