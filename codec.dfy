/**
 * The participant column of the raffle row. The participant list is stored
 * as one comma-joined string (bot.py:75) and read back with `split(",")`,
 * where an empty column stands for the empty list (bot.py:68).
 */
module ParticipantCodec {
  import opened Wrappers
  import Text

  const SEP: char := ','

  /** An identifier the column can hold without changing the list's shape. */
  predicate WellFormedId(id: string) {
    id != "" && SEP !in id
  }

  /** `",".join(participants)`, the text written to the column. */
  function Encode(participants: seq<string>): (column: string)
    ensures column == "" <==> participants == [] || participants == [""]
  {
    Text.JoinWith(SEP, participants)
  }

  /** `column.split(",") if column else []`, the list read from the column. */
  function Decode(column: string): (participants: seq<string>)
    ensures participants == [] <==> column == ""
    ensures forall i :: 0 <= i < |participants| ==> SEP !in participants[i]
  {
    if column == "" then [] else Text.SplitOn(SEP, column)
  }

  /** Writing back what was read leaves the column exactly as it was. */
  lemma EncodeDecode(column: string)
    ensures Encode(Decode(column)) == column
  {
    if column != "" {
      Text.JoinSplit(SEP, column);
    }
  }

  /**
   * A list survives the column unchanged exactly when none of its entries
   * holds a comma and it is not the one-entry list `[""]`, which is written
   * as the empty column and read back as `[]`.
   */
  lemma DecodeEncode(participants: seq<string>)
    ensures Decode(Encode(participants)) == participants <==>
              (forall i :: 0 <= i < |participants| ==> SEP !in participants[i]) && participants != [""]
  {
    var back := Decode(Encode(participants));
    if (forall i :: 0 <= i < |participants| ==> SEP !in participants[i]) && participants != [""] {
      if participants != [] {
        Text.SplitJoin(SEP, participants);
      }
    }
  }

  /** The round trip for lists of non-empty, comma-free identifiers. */
  lemma RoundTrip(participants: seq<string>)
    requires forall i :: 0 <= i < |participants| ==> WellFormedId(participants[i])
    ensures Decode(Encode(participants)) == participants
  {
    assert participants == [""] ==> !WellFormedId(participants[0]);
    DecodeEncode(participants);
  }

  /** Appending a well-formed identifier to a list read from the column survives the column. */
  lemma AppendRoundTrip(column: string, id: string)
    requires WellFormedId(id)
    ensures Decode(Encode(Decode(column) + [id])) == Decode(column) + [id]
  {
    var list := Decode(column) + [id];
    assert forall i :: 0 <= i < |list| ==> SEP !in list[i] by {
      forall i | 0 <= i < |list| ensures SEP !in list[i] {
        if i < |Decode(column)| { assert list[i] == Decode(column)[i]; }
      }
    }
    assert list[|list| - 1] == id;
    DecodeEncode(list);
  }

  /** The decimal digit for `d`. */
  function DigitChar(d: nat): (c: char)
    requires d < 10
    ensures '0' <= c <= '9'
  {
    "0123456789"[d]
  }

  /** `str(n)` for a natural number: its decimal digits, most significant first. */
  function NatToDecimal(n: nat): (s: string)
    ensures |s| >= 1
    ensures forall i :: 0 <= i < |s| ==> '0' <= s[i] <= '9'
    ensures s[0] == '0' ==> n == 0
    decreases n
  {
    if n < 10 then [DigitChar(n)] else NatToDecimal(n / 10) + [DigitChar(n % 10)]
  }

  /** The number a string of decimal digits denotes. */
  function DecimalValue(s: string): nat
    requires forall i :: 0 <= i < |s| ==> '0' <= s[i] <= '9'
  {
    if s == [] then 0 else 10 * DecimalValue(s[..|s| - 1]) + (s[|s| - 1] as int - '0' as int)
  }

  /** The digits of `NatToDecimal(n)` denote `n`. */
  lemma {:induction false} NatToDecimalValue(n: nat)
    ensures DecimalValue(NatToDecimal(n)) == n
    decreases n
  {
    var s := NatToDecimal(n);
    if n >= 10 {
      NatToDecimalValue(n / 10);
      assert s[..|s| - 1] == NatToDecimal(n / 10);
    }
  }

  /** `str(n)` for an integer: a leading '-' for negative numbers. */
  function IntToDecimal(n: int): (s: string)
    ensures WellFormedId(s)
    ensures (s[0] == '-') == (n < 0)
  {
    if n < 0 then "-" + NatToDecimal(-n) else NatToDecimal(n)
  }

  /**
   * The identifier a joining user is recorded under: the username when the
   * user has a non-empty one, otherwise the decimal user id (bot.py:230).
   */
  function ParticipantKey(username: Option<string>, userId: int): (key: string)
    ensures key != ""
  {
    match username
    case Some(name) => if name != "" then name else IntToDecimal(userId)
    case None => IntToDecimal(userId)
  }

  /**
   * The key is always storable in the column as long as usernames hold no
   * comma (chat usernames are letters, digits and underscores).
   */
  lemma ParticipantKeyWellFormed(username: Option<string>, userId: int)
    requires username.Some? ==> SEP !in username.value
    ensures WellFormedId(ParticipantKey(username, userId))
  {
  }

  /** Different natural numbers have different decimal strings. */
  lemma NatToDecimalInjective(m: nat, n: nat)
    ensures NatToDecimal(m) == NatToDecimal(n) ==> m == n
  {
    NatToDecimalValue(m);
    NatToDecimalValue(n);
  }

  /** Two users without usernames get different keys exactly when their ids differ. */
  lemma IdKeysDistinct(a: int, b: int)
    ensures ParticipantKey(None, a) == ParticipantKey(None, b) <==> a == b
  {
    var sa, sb := IntToDecimal(a), IntToDecimal(b);
    if sa == sb {
      if a < 0 {
        assert b < 0;
        assert sa[1..] == NatToDecimal(-a);
        assert sb[1..] == NatToDecimal(-b);
        NatToDecimalInjective(-a, -b);
      } else {
        assert b >= 0;
        NatToDecimalInjective(a, b);
      }
    }
  }
}
