/**
 * The single-row table behind the raffle (bot.py:48-80), as the value of
 * one optional slot: `None` until the first read inserts the default row.
 */
module Store {
  import opened Wrappers
  import opened RaffleState
  import ParticipantCodec

  /** The table's one row: prize text, status text and participant column. */
  datatype Row = Row(prize: string, status: string, participants: string)

  /** The row the first read inserts (bot.py:61-64). */
  const DefaultRow: Row := Row(NO_PRIZE, INACTIVE, "")

  /** The row in place once `get_sorteio` has run: the stored one, or the default. */
  function Stored(slot: Option<Row>): Row {
    slot.GetOr(DefaultRow)
  }

  /** The record `get_sorteio` returns for the slot (bot.py:66-69). */
  function View(slot: Option<Row>): (r: Raffle)
    ensures slot.None? ==> r == Initial
    ensures slot.Some? ==> r.prize == slot.value.prize && r.status == slot.value.status
  {
    var row := Stored(slot);
    Raffle(row.prize, row.status, ParticipantCodec.Decode(row.participants))
  }

  /**
   * The row `update_sorteio` writes when every field is given (bot.py:73-78).
   * Reading it back gives the same prize and status, and the same list
   * exactly when no entry holds a comma and the list is not `[""]`.
   */
  function Write(r: Raffle): (w: Row)
    ensures View(Some(w)).prize == r.prize && View(Some(w)).status == r.status
    ensures View(Some(w)).participants == r.participants <==>
              (forall i :: 0 <= i < |r.participants| ==> ParticipantCodec.SEP !in r.participants[i])
              && r.participants != [""]
  {
    ParticipantCodec.DecodeEncode(r.participants);
    Row(r.prize, r.status, ParticipantCodec.Encode(r.participants))
  }

  /** Lazy initialisation is invisible: a read returns the same record before and after it. */
  lemma LazyInitInvisible(slot: Option<Row>)
    ensures View(Some(Stored(slot))) == View(slot)
    ensures Stored(Some(Stored(slot))) == Stored(slot)
  {
  }

  /** Writing back the record just read leaves the row exactly as it was. */
  lemma WriteView(slot: Option<Row>)
    ensures Write(View(slot)) == Stored(slot)
  {
    ParticipantCodec.EncodeDecode(Stored(slot).participants);
  }

  /** A consistent record survives a write and a read unchanged. */
  lemma ViewWrite(r: Raffle)
    requires Consistent(r)
    ensures View(Some(Write(r))) == r
  {
    ParticipantCodec.RoundTrip(r.participants);
  }
}
