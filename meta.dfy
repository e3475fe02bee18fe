/**
 * `build_meta`, `extract_order_number` and `hubDict`: the per-order
 * metadata record read from fixed positions of the condensed new value
 * list.
 */
module Meta {
  import opened PyText
  import opened Results

  /** Warehouse id to the hub it belongs to (`hubDict`). */
  const HubDict: map<string, string> := map[
    "01" := "Fisher Clinical Services Inc",
    "02" := "EUROPEAN D.C.",
    "03" := "SYDNEY D.C.",
    "11" := "TORONTO D.C.",
    "12" := "MEXICO D.C.",
    "13" := "BRAZIL D.C.",
    "14" := "ARGENTINA D.C.",
    "15" := "LLY North America D.C.",
    "20" := "UKRAINE D.C.",
    "21" := "JSC IMP Logistics Russia",
    "23" := "UNITED KINGDOM D.C.",
    "30" := "SINGAPORE D.C.",
    "31" := "JAPAN D.C.",
    "32" := "INDIA D.C.",
    "33" := "CHINA-HUB D.C.",
    "34" := "CHINA-DEPOT D.C."
  ]

  /** "01" is Fisher Clinical Services; an unlisted id such as "99", or an empty one, is not a warehouse. */
  lemma HubDictFacts()
    ensures HubDict["01"] == "Fisher Clinical Services Inc"
    ensures "99" !in HubDict && "" !in HubDict && "1" !in HubDict
  {
  }

  /** `s[s.find(':') + 2:]`: the value of an entry "LABEL: value". */
  function FieldValue(s: string): string
  {
    Slice(s, Find(s, ':') + 2, |s|)
  }

  /** Reading an entry "LABEL: value" gives back the value. */
  lemma FieldValueOfItem(name: string, value: string)
    requires ':' !in name
    ensures FieldValue(name + ": " + value) == value
  {
    var s := name + ": " + value;
    assert Find(s, ':') == |name| by {
      assert s == name + (": " + value);
      FindConcat(name, ": " + value, ':');
    }
    assert s[|name| + 2..] == value;
  }

  /** An entry with no ':' is read from its second character on (`find` gives -1, so the slice starts at 1). */
  lemma FieldValueWithoutColon(s: string)
    requires ':' !in s && |s| > 0
    ensures FieldValue(s) == s[1..]
  {
  }

  /**
   * The condensed positions `build_meta` reads. `build_trail` compares
   * ORDER_NUMBER too: a change there means the order was created.
   */
  const OrderNumberPos: nat := 0
  const ActualDeliveryDatePos: nat := 1
  const ActualShipDatePos: nat := 2
  const DeliveryCountryCodePos: nat := 7
  const DestinationAddrTypePos: nat := 9
  const DrugFlagPos: nat := 11
  const OrderDatePos: nat := 17
  const PriorityPos: nat := 19
  const RequestedDeliveryDatePos: nat := 24
  const ShipmentAddrTypePos: nat := 27
  const ShipToCountryCodePos: nat := 29
  const TypeIdPos: nat := 32
  const WarehouseIdPos: nat := 33
  const IwrsOrderPos: nat := 36

  /** One row of the metadata table, in its column order. */
  datatype MetaRecord = MetaRecord(
    orderNum: string,
    deliveryCountryCode: string,
    shipToCountryCode: string,
    deliveryAddrType: string,
    shipToAddrType: string,
    drugFlag: string,
    orderDate: string,
    shipDate: string,
    deliveryDate: string,
    requestedDeliveryDate: string,
    priority: string,
    typeId: string,
    warehouseId: string,
    hubId: string,
    iwrsOrder: string)

  /**
   * What `build_meta` appends for a condensed new list `n`: a record when
   * every position it reads exists and the warehouse id is a key of
   * `hubDict`; nothing otherwise (the `IndexError` or `KeyError` is caught
   * and the row skipped). The record is all or nothing.
   */
  function MetaFor(n: seq<string>): (r: Option<MetaRecord>)
    ensures r.Some? <==> |n| > IwrsOrderPos && FieldValue(n[WarehouseIdPos]) in HubDict
    ensures r.Some? ==> r.value.warehouseId in HubDict && r.value.hubId == HubDict[r.value.warehouseId]
  {
    if |n| <= WarehouseIdPos then None
    else
      var whId := FieldValue(n[WarehouseIdPos]);
      if whId !in HubDict then None
      else if |n| <= IwrsOrderPos then None
      else Some(MetaRecord(
        FieldValue(n[OrderNumberPos]),
        FieldValue(n[DeliveryCountryCodePos]),
        FieldValue(n[ShipToCountryCodePos]),
        FieldValue(n[DestinationAddrTypePos]),
        FieldValue(n[ShipmentAddrTypePos]),
        FieldValue(n[DrugFlagPos]),
        FieldValue(n[OrderDatePos]),
        FieldValue(n[ActualShipDatePos]),
        FieldValue(n[ActualDeliveryDatePos]),
        FieldValue(n[RequestedDeliveryDatePos]),
        FieldValue(n[PriorityPos]),
        FieldValue(n[TypeIdPos]),
        whId,
        HubDict[whId],
        FieldValue(n[IwrsOrderPos])))
  }

  /**
   * `extract_order_number`: the value of the first entry of a new list;
   * an empty list raises `IndexError`, here `None`.
   */
  function ExtractOrderNumber(list: seq<string>): (r: Option<string>)
    ensures r.Some? <==> |list| > 0
  {
    if |list| == 0 then None else Some(FieldValue(list[0]))
  }
}
