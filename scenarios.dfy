/**
 * Sessions with the bot, proved from the handlers' contracts alone: the
 * gift-card walk-through and a draw in an empty raffle.
 */
module Scenarios {
  import opened Wrappers
  import opened RaffleState
  import opened Store
  import opened Bot
  import ParticipantCodec

  /** An administrator opens the gift-card raffle. */
  method Open(adminId: int) returns (bot: RaffleBot)
    ensures fresh(bot) && bot.allowList == [adminId] && bot.Valid()
    ensures bot.handle == Some(Handle(-100, 7))
    ensures View(bot.row) == Raffle("Gift Card", ACTIVE, [])
  {
    bot := new RaffleBot([adminId]);
    var board := bot.StartRaffle(Caller(adminId, None), ["Gift", "Card"], Some(Handle(-100, 7)));
    assert PrizeOf(["Gift", "Card"]) == "Gift Card";
    assert board == Some(Board("Gift Card", 0));
  }

  /**
   * A new user with a storable name joins the open gift-card raffle: the
   * name goes at the end of the list and the live message is edited to the
   * new count.
   */
  method JoinNew(bot: RaffleBot, name: string, userId: int, listed: seq<string>)
    requires name != "" && ParticipantCodec.SEP !in name && name !in listed
    requires bot.handle == Some(Handle(-100, 7))
    requires View(bot.row) == Raffle("Gift Card", ACTIVE, listed)
    modifies bot
    ensures bot.handle == Some(Handle(-100, 7))
    ensures View(bot.row) == Raffle("Gift Card", ACTIVE, listed + [name])
  {
    assert ParticipantCodec.ParticipantKey(Some(name), userId) == name;
    var added, edit := bot.Join(Some(name), userId, true);
    assert added;
    assert edit == Some(Edit(Handle(-100, 7), Board("Gift Card", |listed| + 1)));
  }

  /** Three users join the open raffle, one of them twice; every join but the repeat edits the live message. */
  method JoinThree(bot: RaffleBot, a: string, b: string, c: string)
    requires a != b && b != c && a != c
    requires a != "" && b != "" && c != ""
    requires ParticipantCodec.SEP !in a && ParticipantCodec.SEP !in b && ParticipantCodec.SEP !in c
    requires bot.handle == Some(Handle(-100, 7))
    requires View(bot.row) == Raffle("Gift Card", ACTIVE, [])
    modifies bot
    ensures View(bot.row) == Raffle("Gift Card", ACTIVE, [a, b, c])
  {
    JoinNew(bot, a, 1, []);
    assert [] + [a] == [a];
    JoinNew(bot, b, 2, [a]);
    assert ParticipantCodec.ParticipantKey(Some(a), 1) == a;
    var added, edit := bot.Join(Some(a), 1, false);
    assert !added && edit == None;
    JoinNew(bot, c, 3, [a, b]);
  }

  /** The administrator closes entry, a late join is ignored, and two draws pick members. */
  method CloseAndDraw(bot: RaffleBot, adminId: int, a: string, b: string, c: string, choice: nat)
    requires adminId in bot.allowList
    requires View(bot.row) == Raffle("Gift Card", ACTIVE, [a, b, c])
    modifies bot
  {
    var admin := Caller(adminId, None);
    bot.StopRaffle(admin);
    assert View(bot.row) == Raffle("Gift Card", INACTIVE, [a, b, c]);
    var added, edit := bot.Join(None, 4, true);
    assert !added && View(bot.row).participants == [a, b, c];

    var result := bot.DrawWinner(admin, choice);
    assert result.Drawn? && result.winner in [a, b, c] && result.total == 3;
    var again := bot.DrawWinner(admin, choice + 1);
    assert again.Drawn? && again.winner in [a, b, c];
    assert View(bot.row) == Raffle("Gift Card", INACTIVE, [a, b, c]);
  }

  /** The whole walk-through, and a draw by a non-administrator that is refused. */
  method GiftCardSession(adminId: int, a: string, b: string, c: string, choice: nat)
    requires a != b && b != c && a != c
    requires a != "" && b != "" && c != ""
    requires ParticipantCodec.SEP !in a && ParticipantCodec.SEP !in b && ParticipantCodec.SEP !in c
  {
    var bot := Open(adminId);
    JoinThree(bot, a, b, c);
    CloseAndDraw(bot, adminId, a, b, c, choice);
    var refused := bot.DrawWinner(Caller(adminId + 1, Some("member")), choice);
    assert Caller(adminId + 1, Some("member")).userId !in bot.allowList;
    assert refused == Refused;
  }

  /** A draw before anyone joined reports it and leaves the default record. */
  method EmptyDrawSession(adminId: int, choice: nat) {
    var bot := new RaffleBot([adminId]);
    var result := bot.DrawWinner(Caller(adminId, None), choice);
    assert result == NoParticipants;
    assert View(bot.row) == Initial;
    assert bot.row == Some(DefaultRow);
    var edit := bot.Refresh(true);
    assert edit == None && bot.handle == None;
  }
}
