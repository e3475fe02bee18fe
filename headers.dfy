/** The fixed column labels of the CT-WIN T_ORDER table, in export order. */
module Headers {

  /** The 55 labels `custom_split` accepts as field names (`build_return_list`). */
  function BuildReturnList(): (labels: seq<string>)
  {
    // positions 0-10, 11-21, 22-32, 33-43, 44-54
    ["ORDER_NUMBER", "ACTUAL_DELIVERY_DATE", "ACTUAL_SHIP_DATE", "BACKORDER", "CARRIER",
      "CROSS_DOCK_ORDERS_FLAG", "DEA_NUMBER", "DELIVERY_ADDR1", "DELIVERY_ADDR2",
      "DELIVERY_ADDR3", "DELIVERY_CITY"]
    + ["DELIVERY_COUNTRY_CODE", "DELIVERY_COUNTRY_NAME", "DELIVERY_NAME", "DELIVERY_PHONE",
      "DELIVERY_STATE", "DELIVERY_ZIP", "DESTINATION_ADDR_TYPE", "DETAILS_FOR_RECEIVER",
      "DRUG_FLAG", "E_CTS_SHIPMENT_NUMBER", "IVRS_NUMBER"]
    + ["IVRS_ORDER", "ORDER_CONFIRM_DATE", "ORDER_CREATE_USER", "ORDER_DATE", "ORDER_ID",
      "PRIORITY", "PRO_NUMBER", "REFERENCE_NUMBER", "REGION", "REG_READY_FLAG",
      "REQUESTED_DELIVERY_DATE"]
    + ["RMA_EXPIRATION_DATE", "RMA_NUMBER", "SHIPMENT_ADDR_TYPE", "SHIP_EARLY_FLAG",
      "SHIP_TO_ADDR1", "SHIP_TO_ADDR2", "SHIP_TO_ADDR3", "SHIP_TO_CITY",
      "SHIP_TO_COUNTRY_CODE", "SHIP_TO_NAME", "SHIP_TO_PHONE"]
    + ["SHIP_TO_STATE", "SHIP_TO_ZIP", "STATUS", "TRIAL_ALIAS", "TYPE_ID", "WH_ID",
      "OUTBOUND_DELIVERY_NUMBER", "SHIP_TO_SAP_PLANT", "IWRS_ORDER", "FIT_FOR_USE",
      "AOR_RECEIVED_FLAG"]
  }

  /** `headerList`, the module-level copy every lookup uses. */
  const HeaderList: seq<string> := BuildReturnList()

  /** The width every valid old/new field list must have. */
  const Width: nat := 55

  /** There is one label per column of the export. */
  lemma HeaderListWidth()
    ensures |HeaderList| == Width
  {
  }

  /** The labels at the positions the trail and the metadata table read. */
  lemma Names()
    ensures HeaderList[0] == "ORDER_NUMBER" && HeaderList[1] == "ACTUAL_DELIVERY_DATE"
    ensures HeaderList[2] == "ACTUAL_SHIP_DATE" && HeaderList[11] == "DELIVERY_COUNTRY_CODE"
    ensures HeaderList[17] == "DESTINATION_ADDR_TYPE" && HeaderList[19] == "DRUG_FLAG"
    ensures HeaderList[23] == "ORDER_CONFIRM_DATE" && HeaderList[24] == "ORDER_CREATE_USER"
    ensures HeaderList[25] == "ORDER_DATE" && HeaderList[27] == "PRIORITY"
    ensures HeaderList[32] == "REQUESTED_DELIVERY_DATE" && HeaderList[35] == "SHIPMENT_ADDR_TYPE"
    ensures HeaderList[41] == "SHIP_TO_COUNTRY_CODE" && HeaderList[46] == "STATUS"
    ensures HeaderList[48] == "TYPE_ID" && HeaderList[49] == "WH_ID" && HeaderList[52] == "IWRS_ORDER"
  {
  }
}
