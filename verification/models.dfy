/** The records exchanged between the store, the rate source and the
    calculator (src-tauri/src/models.rs). Amounts and rates are exact reals. */
module Models {

  /** One row of the `state_rates` table. `rate` and `plusPercentage` are
      percentages (7.5 means 7.5 %). */
  datatype StateRate = StateRate(
    id: int,
    state: string,
    rate: real,
    isVariable: bool,
    plusPercentage: real,
    updateFrequency: string,
    lastUpdate: string,
    notes: string)

  /** A calculation request as the UI sends it: dates are `YYYY-MM-DD` text. */
  datatype CalcRequest = CalcRequest(
    judgmentDate: string,
    isFederal: bool,
    state: string,
    amount: real,
    fromDate: string,
    toDate: string)

  /** The calculation result; `rate` is a percentage for display. */
  datatype CalcResponse = CalcResponse(
    rate: real,
    days: int,
    interestAmount: real,
    totalAmount: real,
    rateSource: string,
    disclaimer: string)

  /** One data point of the 1-year Treasury series; `value` is "." when the
      series has no value for `date`. */
  datatype FredObservation = FredObservation(
    realtimeStart: string,
    realtimeEnd: string,
    date: string,
    value: string)

  /** `StateRate::new`: a record not yet stored (id 0), stamped with
      `today`, the local date the source reads from the clock. */
  function NewStateRate(
    state: string, rate: real, isVariable: bool, plusPercentage: real,
    updateFrequency: string, notes: string, today: string): (r: StateRate)
    ensures r.id == 0 && r.lastUpdate == today
    ensures r.state == state && r.rate == rate && r.isVariable == isVariable
    ensures r.plusPercentage == plusPercentage && r.updateFrequency == updateFrequency
    ensures r.notes == notes
  {
    StateRate(0, state, rate, isVariable, plusPercentage, updateFrequency, today, notes)
  }
}
