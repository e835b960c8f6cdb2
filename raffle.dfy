/**
 * The raffle record as the handlers see it after reading the store
 * (bot.py:66, 69), and the state each handler leaves behind, written as
 * functions of the record it read.
 */
module RaffleState {
  import opened Wrappers
  import Text
  import ParticipantCodec

  const ACTIVE: string := "ativo"
  const INACTIVE: string := "inativo"
  const NO_PRIZE: string := "Nenhum definido"

  /** Prize label, status text and participant list, in joining order. */
  datatype Raffle = Raffle(prize: string, status: string, participants: seq<string>)

  /** The record a fresh store starts with (bot.py:63, 66). */
  const Initial: Raffle := Raffle(NO_PRIZE, INACTIVE, [])

  predicate NoDuplicates(s: seq<string>) {
    forall i, j :: 0 <= i < j < |s| ==> s[i] != s[j]
  }

  /**
   * What the handlers keep true of the record: one of the two status texts,
   * identifiers the participant column can hold, and no one listed twice.
   */
  predicate Consistent(r: Raffle) {
    && (r.status == ACTIVE || r.status == INACTIVE)
    && (forall i :: 0 <= i < |r.participants| ==> ParticipantCodec.WellFormedId(r.participants[i]))
    && NoDuplicates(r.participants)
  }

  /** `" ".join(args)`: the prize named by the command's arguments (bot.py:140). */
  function PrizeOf(args: seq<string>): (prize: string)
    ensures prize == "" <==> args == [] || args == [""]
    ensures |args| >= 2 ==> ' ' in prize
  {
    var prize := Text.JoinWith(' ', args);
    assert |args| >= 2 ==> prize[|args[0]|] == ' ';
    prize
  }

  /**
   * The command arguments are the space-free words of the command text, so
   * the prize determines them: splitting it on spaces gives the words back.
   */
  lemma PrizeWords(args: seq<string>)
    requires |args| > 0
    requires forall i :: 0 <= i < |args| ==> ' ' !in args[i]
    ensures Text.SplitOn(' ', PrizeOf(args)) == args
  {
    Text.SplitJoin(' ', args);
  }

  /**
   * A new raffle for `prize`, open and with nobody in it (bot.py:141): it is
   * consistent whatever came before, and every user may join it.
   */
  function Start(prize: string): (s: Raffle)
    ensures Consistent(s)
    ensures forall id :: Admits(s, id)
  {
    Raffle(prize, ACTIVE, [])
  }

  /** Entry closed, everything else kept (bot.py:154): nobody may join afterwards. */
  function Stop(r: Raffle): (s: Raffle)
    ensures s.prize == r.prize && s.participants == r.participants
    ensures forall id :: !Admits(s, id)
  {
    r.(status := INACTIVE)
  }

  /** Whether a join by `id` changes the record (bot.py:226, 231). */
  predicate Admits(r: Raffle, id: string) {
    r.status == ACTIVE && id !in r.participants
  }

  /**
   * The record after `id` presses the join button (bot.py:225-233). Prize
   * and status stay, the old list is kept as a prefix and grows by at most
   * one entry, and `id` is listed afterwards exactly when the raffle was
   * open or it was listed already.
   */
  function Join(r: Raffle, id: string): (s: Raffle)
    ensures s.prize == r.prize && s.status == r.status
    ensures r.participants <= s.participants && |s.participants| <= |r.participants| + 1
    ensures id in s.participants <==> r.status == ACTIVE || id in r.participants
  {
    if Admits(r, id) then r.(participants := r.participants + [id]) else r
  }

  /**
   * The record after a sequence of joins, one after the other: prize and
   * status stay, the old list is kept as a prefix, and every entry added
   * is one of the joining ids.
   */
  function JoinAll(r: Raffle, ids: seq<string>): (s: Raffle)
    ensures s.prize == r.prize && s.status == r.status
    ensures r.participants <= s.participants
    ensures forall i :: |r.participants| <= i < |s.participants| ==> s.participants[i] in ids
    decreases |ids|
  {
    if ids == [] then r else JoinAll(Join(r, ids[0]), ids[1..])
  }

  /**
   * The winner for the caller's `choice`: none for an empty list, otherwise
   * the entry at `choice` modulo the list's length (bot.py:170, 174).
   */
  function Winner(r: Raffle, choice: nat): (w: Option<string>)
    ensures w.None? <==> r.participants == []
    ensures w.Some? ==> w.value in r.participants
  {
    if r.participants == [] then None
    else Some(r.participants[choice % |r.participants|])
  }

  /**
   * The record after a draw or redraw (bot.py:170-172, 186, 202-204, 218):
   * prize and list stay, and once someone was drawn nobody may join.
   */
  function Draw(r: Raffle): (s: Raffle)
    ensures s.prize == r.prize && s.participants == r.participants
    ensures r.participants != [] ==> forall id :: !Admits(s, id)
  {
    if r.participants == [] then r else r.(status := INACTIVE)
  }

  // ----- Properties of the transitions -----

  /** Closing entry keeps the record consistent. */
  lemma StopKeepsConsistent(r: Raffle)
    requires Consistent(r)
    ensures Consistent(Stop(r))
  {
  }

  /** A join with a storable key keeps the record consistent: in particular no one is listed twice. */
  lemma JoinKeepsConsistent(r: Raffle, id: string)
    requires Consistent(r)
    requires ParticipantCodec.WellFormedId(id)
    ensures Consistent(Join(r, id))
  {
    var s := r.participants + [id];
    if Admits(r, id) {
      forall i, j | 0 <= i < j < |s| ensures s[i] != s[j] {
        if j == |s| - 1 {
          assert s[i] == r.participants[i];
        }
      }
    }
  }

  /** A draw keeps the record consistent. */
  lemma DrawKeepsConsistent(r: Raffle)
    requires Consistent(r)
    ensures Consistent(Draw(r))
  {
  }

  /**
   * A join adds exactly the joining id, at the end, when the raffle is
   * active and the id is new; otherwise it changes nothing. Prize and status
   * never change.
   */
  lemma JoinEffect(r: Raffle, id: string)
    ensures Join(r, id).prize == r.prize && Join(r, id).status == r.status
    ensures Admits(r, id) ==> Join(r, id).participants == r.participants + [id]
    ensures !Admits(r, id) ==> Join(r, id) == r
    ensures id in Join(r, id).participants <==> r.status == ACTIVE || id in r.participants
    ensures Join(Join(r, id), id) == Join(r, id)
  {
  }

  /** Once entry is closed, joins change nothing. */
  lemma {:induction false} JoinAllWhenClosed(r: Raffle, ids: seq<string>)
    requires r.status != ACTIVE
    ensures JoinAll(r, ids) == r
    decreases |ids|
  {
    if ids != [] {
      JoinAllWhenClosed(Join(r, ids[0]), ids[1..]);
    }
  }

  /**
   * Any sequence of joins into an open raffle, in any order and with any
   * repetitions, lists every joining id exactly once: the list keeps its
   * old entries as a prefix, gains only ids that joined, holds every one of
   * them and has no duplicates.
   */
  lemma {:induction false} JoinAllWhenOpen(r: Raffle, ids: seq<string>)
    requires r.status == ACTIVE
    requires NoDuplicates(r.participants)
    ensures var q := JoinAll(r, ids);
      && q.prize == r.prize && q.status == ACTIVE
      && NoDuplicates(q.participants)
      && r.participants <= q.participants
      && (forall x :: x in q.participants <==> x in r.participants || x in ids)
    decreases |ids|
  {
    if ids != [] {
      var r1 := Join(r, ids[0]);
      var s := r1.participants;
      if Admits(r, ids[0]) {
        forall i, j | 0 <= i < j < |s| ensures s[i] != s[j] {
          if j == |s| - 1 {
            assert s[i] == r.participants[i];
          }
        }
      }
      JoinAllWhenOpen(r1, ids[1..]);
      assert ids == [ids[0]] + ids[1..];
      forall x ensures x in ids <==> x == ids[0] || x in ids[1..] {
        if x in ids[1..] {
          assert x in ids;
        }
      }
    }
  }

  /** Every participant is the winner for some choice. */
  lemma EveryParticipantCanWin(r: Raffle, id: string)
    requires id in r.participants
    ensures exists choice: nat :: Winner(r, choice) == Some(id)
  {
    var i :| 0 <= i < |r.participants| && r.participants[i] == id;
    assert i % |r.participants| == i;
    assert Winner(r, i) == Some(id);
  }

  /**
   * A draw closes entry and keeps prize and list; it is idempotent, so a
   * redraw leaves the same state and picks among the same participants.
   */
  lemma DrawEffect(r: Raffle, choice: nat)
    ensures Draw(r).prize == r.prize && Draw(r).participants == r.participants
    ensures r.participants != [] ==> Draw(r).status == INACTIVE
    ensures r.participants == [] ==> Draw(r) == r
    ensures Draw(Draw(r)) == Draw(r)
    ensures Winner(Draw(r), choice) == Winner(r, choice)
  {
  }

  /** Joins by a, b, a again and c into the new gift-card raffle list them once each, in order. */
  lemma GiftCardJoins(a: string, b: string, c: string)
    requires a != b && b != c && a != c
    ensures JoinAll(Start("Gift Card"), [a, b, a, c]) == Raffle("Gift Card", ACTIVE, [a, b, c])
  {
    var open := Start("Gift Card");
    var r1 := Join(open, a);
    var r2 := Join(r1, b);
    var r3 := Join(r2, a);
    var r4 := Join(r3, c);
    assert r1.participants == [a];
    assert r2.participants == [a, b];
    assert r3 == r2;
    assert r4 == Raffle("Gift Card", ACTIVE, [a, b, c]);
    assert JoinAll(r4, []) == r4;
    assert JoinAll(r3, [c]) == r4;
    assert JoinAll(r2, [a, c]) == r4 by { assert [a, c][1..] == [c]; }
    assert JoinAll(r1, [b, a, c]) == r4 by { assert [b, a, c][1..] == [a, c]; }
    assert [a, b, a, c][1..] == [b, a, c];
  }

  /**
   * The gift-card walk-through: a new raffle, three distinct users joining
   * (one of them twice), a stop and a draw.
   */
  lemma GiftCardScenario(a: string, b: string, c: string, choice: nat)
    requires a != b && b != c && a != c
    ensures var open := Start("Gift Card");
      var joined := JoinAll(open, [a, b, a, c]);
      var closed := Stop(joined);
      && open.participants == [] && open.status == ACTIVE
      && joined.participants == [a, b, c]
      && closed.status == INACTIVE && closed.participants == [a, b, c]
      && Join(closed, "late") == closed
      && Winner(closed, choice).Some?
      && Winner(closed, choice).value in {a, b, c}
      && Draw(closed).status == INACTIVE && Draw(closed).participants == [a, b, c]
  {
    GiftCardJoins(a, b, c);
    var closed := Raffle("Gift Card", INACTIVE, [a, b, c]);
    assert Stop(JoinAll(Start("Gift Card"), [a, b, a, c])) == closed;
    assert Winner(closed, choice).value in closed.participants;
  }
}
