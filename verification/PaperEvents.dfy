/** The columns of paper_events that the read models use (backend/app/db/models.py:183-211). */
module PaperEvents {
  import opened Prelude

  /** The members the queries cast to float; None where the JSON has none. */
  datatype Payload = Payload(equity: Option<real>, peakEquity: Option<real>, drawdownPct: Option<real>,
                             pnl: Option<real>)

  /** One row; ts counts microseconds. */
  datatype Event = Event(id: nat, ts: int, eventType: string, instrument: Option<string>, payload: Payload)
}
