/**
 * The raffle handlers of bot.py with the chat transport taken out: the
 * store slot and the live-message handle are the bot's state, and every
 * transport answer the handlers look at is a parameter.
 */
module Bot {
  import opened Wrappers
  import opened RaffleState
  import opened Store
  import ParticipantCodec
  import Admin

  /** Where the live raffle message is: its chat and its message id (bot.py:263-264). */
  datatype Handle = Handle(chatId: int, messageId: int)

  /**
   * Who sent a command: the user id and the chat's answer to the member
   * lookup, `None` when the lookup raised (bot.py:21-31).
   */
  datatype Caller = Caller(userId: int, role: Option<string>)

  /** What the live message shows: the prize and the number of participants. */
  datatype Board = Board(prize: string, count: nat)

  /** An edit sent to the transport: which message, and what it should now show. */
  datatype Edit = Edit(target: Handle, board: Board)

  /** What a draw command reports. */
  datatype DrawResult =
    | Refused                                          // not an administrator: silence
    | NoParticipants                                   // "no participants" reply
    | Drawn(winner: string, prize: string, total: nat) // the announced result

  /** Whether a refresh edits anything: both ids recorded and truthy (bot.py:268). */
  predicate Refreshable(h: Option<Handle>) {
    h.Some? && h.value.chatId != 0 && h.value.messageId != 0
  }

  class RaffleBot {
    /** The configured administrator ids. */
    const allowList: seq<int>
    /** The store's single slot. */
    var row: Option<Row>
    /** The live-message handle, `None` until a raffle message is sent. */
    var handle: Option<Handle>

    /** The record the store holds is consistent (status text, keys, no duplicates). */
    ghost predicate Valid()
      reads this
    {
      Consistent(View(row))
    }

    constructor (allowList: seq<int>)
      ensures this.allowList == allowList
      ensures row == None && handle == None
      ensures Valid()
    {
      this.allowList := allowList;
      row := None;
      handle := None;
    }

    /** The admin decision for `caller` under this bot's allow-list. */
    predicate Authorized(caller: Caller) {
      Admin.IsAdmin(allowList, caller.userId, caller.role)
    }

    /** `get_sorteio`: the current record; an empty store is given the default row first. */
    method Get() returns (r: Raffle)
      modifies this`row
      ensures row == Some(Stored(old(row)))
      ensures r == View(old(row)) && r == View(row)
      ensures old(Valid()) ==> Valid()
    {
      if row.None? {
        row := Some(DefaultRow);
        r := Initial;
      } else {
        var stored := row.value;
        r := Raffle(stored.prize, stored.status, ParticipantCodec.Decode(stored.participants));
      }
    }

    /**
     * `update_sorteio`: a read followed by a write of every field, where an
     * omitted field is written back with the value just read.
     */
    method Update(prize: Option<string>, status: Option<string>, participants: Option<seq<string>>)
      modifies this`row
      ensures row.Some?
      ensures row.value.prize == if prize.Some? then prize.value else Stored(old(row)).prize
      ensures row.value.status == if status.Some? then status.value else Stored(old(row)).status
      ensures row.value.participants ==
                if participants.Some? then ParticipantCodec.Encode(participants.value)
                else Stored(old(row)).participants
    {
      ghost var before := old(row);
      var current := Get();
      var list := participants.GetOr(current.participants);
      ParticipantCodec.EncodeDecode(Stored(before).participants);
      row := Some(Row(prize.GetOr(current.prize), status.GetOr(current.status), ParticipantCodec.Encode(list)));
    }

    /** `status_command`: the record shown to an administrator, nothing for anyone else. */
    method Status(caller: Caller) returns (shown: Option<Raffle>)
      modifies this`row
      ensures shown == if Authorized(caller) then Some(View(old(row))) else None
      ensures row == if Authorized(caller) then Some(Stored(old(row))) else old(row)
      ensures old(Valid()) ==> Valid()
    {
      shown := None;
      if Authorized(caller) {
        var r := Get();
        shown := Some(r);
      }
    }

    /**
     * `send_sorteio_message`: reads the record and sends the live message
     * for it. `sent` is the transport's answer: the new message's location,
     * or `None` when sending raised, which leaves the old handle in place.
     */
    method Publish(sent: Option<Handle>) returns (board: Board)
      modifies this`row, this`handle
      ensures row == Some(Stored(old(row)))
      ensures board == Board(View(old(row)).prize, |View(old(row)).participants|)
      ensures handle == if sent.Some? then sent else old(handle)
      ensures old(Valid()) ==> Valid()
    {
      var r := Get();
      board := Board(r.prize, |r.participants|);
      if sent.Some? {
        handle := sent;
      }
    }

    /**
     * `update_sorteio_message`: with a refreshable handle, reads the record
     * and edits the live message to show it. `editSucceeded` is the
     * transport's answer, which the source discards: neither the handle nor
     * the store depends on it.
     */
    method Refresh(editSucceeded: bool) returns (edit: Option<Edit>)
      modifies this`row
      ensures row == if Refreshable(handle) then Some(Stored(old(row))) else old(row)
      ensures edit == if Refreshable(handle)
                      then Some(Edit(handle.value, Board(View(old(row)).prize, |View(old(row)).participants|)))
                      else None
      ensures old(Valid()) ==> Valid()
    {
      edit := None;
      if Refreshable(handle) {
        var r := Get();
        edit := Some(Edit(handle.value, Board(r.prize, |r.participants|)));
      }
    }

    /**
     * `setpremio_command`: for an administrator with a non-empty argument
     * list, starts a new raffle named by the arguments and publishes it.
     * Returns what the new live message shows, or `None` when nothing was
     * shown: no raffle started, or it started but sending the message raised.
     */
    method StartRaffle(caller: Caller, args: seq<string>, sent: Option<Handle>) returns (board: Option<Board>)
      modifies this`row, this`handle
      ensures var started := Authorized(caller) && |args| > 0;
        && (started ==> && row == Some(Write(Start(PrizeOf(args))))
                        && View(row) == Start(PrizeOf(args))
                        && handle == (if sent.Some? then sent else old(handle))
                        && board == (if sent.Some? then Some(Board(PrizeOf(args), 0)) else None)
                        && Valid())
        && (!started ==> row == old(row) && handle == old(handle) && board == None)
    {
      board := None;
      if !Authorized(caller) || |args| == 0 {
        return;
      }
      var prize := PrizeOf(args);
      Update(Some(prize), Some(ACTIVE), Some([]));
      ViewWrite(Start(prize));
      var shown := Publish(sent);
      if sent.Some? {
        board := Some(shown);
      }
    }

    /** `parar_command`: an administrator closes entry; prize and participants stay. */
    method StopRaffle(caller: Caller)
      modifies this`row
      ensures Authorized(caller) ==> && row == Some(Stored(old(row)).(status := INACTIVE))
                                     && View(row) == Stop(View(old(row)))
      ensures !Authorized(caller) ==> row == old(row)
      ensures old(Valid()) ==> Valid()
    {
      if Authorized(caller) {
        Update(None, Some(INACTIVE), None);
        if old(Valid()) {
          StopKeepsConsistent(View(old(row)));
        }
      }
    }

    /**
     * `sortear_command` and `proximoganhador_command`, whose state logic is
     * the same: an administrator draws the entry at `choice` modulo the
     * number of participants and closes entry; with nobody in the raffle
     * nothing is drawn and the record stays as it was.
     */
    method DrawWinner(caller: Caller, choice: nat) returns (result: DrawResult)
      modifies this`row
      ensures !Authorized(caller) ==> result == Refused && row == old(row)
      ensures Authorized(caller) && View(old(row)).participants == [] ==>
                result == NoParticipants && row == Some(Stored(old(row)))
      ensures Authorized(caller) && View(old(row)).participants != [] ==>
                && result == Drawn(Winner(View(old(row)), choice).value, View(old(row)).prize,
                                   |View(old(row)).participants|)
                && row == Some(Stored(old(row)).(status := INACTIVE))
      ensures View(row) == if Authorized(caller) then Draw(View(old(row))) else View(old(row))
      ensures old(Valid()) ==> Valid()
    {
      if !Authorized(caller) {
        return Refused;
      }
      ghost var before := old(row);
      var r := Get();
      if |r.participants| == 0 {
        return NoParticipants;
      }
      var winner := r.participants[choice % |r.participants|];
      Update(None, Some(INACTIVE), Some(r.participants));
      WriteView(before);
      if old(Valid()) {
        DrawKeepsConsistent(r);
      }
      result := Drawn(winner, r.prize, |r.participants|);
    }

    /**
     * `button_callback`: the user presses the join button. An open raffle
     * gains the user's key at the end of its list when the key is new, and
     * the live message is then refreshed; everything else leaves the record
     * as it was. Returns whether the user was added and the edit sent.
     */
    method Join(username: Option<string>, userId: int, editSucceeded: bool)
      returns (added: bool, edit: Option<Edit>)
      modifies this`row
      ensures var before := View(old(row));
        var key := ParticipantCodec.ParticipantKey(username, userId);
        && added == Admits(before, key)
        && (added ==> row == Some(Stored(old(row)).(participants := ParticipantCodec.Encode(before.participants + [key]))))
        && (!added ==> row == Some(Stored(old(row))))
        && (added && Refreshable(handle) ==>
              edit == Some(Edit(handle.value, Board(View(row).prize, |View(row).participants|))))
        && (!added || !Refreshable(handle) ==> edit == None)
        && ((username.Some? ==> ParticipantCodec.SEP !in username.value) ==>
              View(row) == RaffleState.Join(before, key) && (old(Valid()) ==> Valid()))
    {
      ghost var before := View(old(row));
      var r := Get();
      edit := None;
      var key := ParticipantCodec.ParticipantKey(username, userId);
      if r.status != ACTIVE || key in r.participants {
        added := false;
        return;
      }
      var list := r.participants + [key];
      Update(None, None, Some(list));
      added := true;
      if username.Some? ==> ParticipantCodec.SEP !in username.value {
        ParticipantCodec.ParticipantKeyWellFormed(username, userId);
        ParticipantCodec.AppendRoundTrip(Stored(old(row)).participants, key);
        if old(Valid()) {
          JoinKeepsConsistent(before, key);
        }
      }
      edit := Refresh(editSucceeded);
    }
  }
}
