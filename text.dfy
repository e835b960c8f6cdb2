/**
 * Joining and splitting strings on a one-character separator, as Python's
 * `sep.join(parts)` and `s.split(sep)` do. The participant column of the
 * raffle row is built with `",".join` and read back with `split(",")`, and a
 * prize is built from the command arguments with `" ".join`.
 */
module Text {

  /** `[sep].join(parts)`: the parts with one separator between neighbours. */
  function JoinWith(sep: char, parts: seq<string>): (s: string)
    ensures s == [] <==> parts == [] || parts == [""]
  {
    if |parts| == 0 then ""
    else if |parts| == 1 then parts[0]
    else parts[0] + [sep] + JoinWith(sep, parts[1..])
  }

  /**
   * `s.split(sep)`: the maximal separator-free pieces of `s`, in order. As in
   * Python, it never returns the empty list: the empty string gives `[""]`,
   * and two neighbouring separators give an empty piece between them.
   */
  function SplitOn(sep: char, s: string): (parts: seq<string>)
    ensures |parts| >= 1
    ensures forall i :: 0 <= i < |parts| ==> sep !in parts[i]
    decreases |s|
  {
    if |s| == 0 then [""]
    else if s[0] == sep then [""] + SplitOn(sep, s[1..])
    else
      var rest := SplitOn(sep, s[1..]);
      [[s[0]] + rest[0]] + rest[1..]
  }

  /** A separator-free prefix of a string only lengthens the first piece. */
  lemma {:induction false} SplitFreePrefix(sep: char, a: string, t: string)
    requires sep !in a
    ensures SplitOn(sep, a + t) == [a + SplitOn(sep, t)[0]] + SplitOn(sep, t)[1..]
    decreases |a|
  {
    if a == [] {
      assert a + t == t;
      var parts := SplitOn(sep, t);
      assert a + parts[0] == parts[0];
      assert parts == [parts[0]] + parts[1..];
    } else {
      assert (a + t)[0] == a[0];
      assert (a + t)[1..] == a[1..] + t;
      SplitFreePrefix(sep, a[1..], t);
      assert [a[0]] + (a[1..] + SplitOn(sep, t)[0]) == a + SplitOn(sep, t)[0];
    }
  }

  /** Splitting the join of separator-free parts gives the parts back. */
  lemma {:induction false} SplitJoin(sep: char, parts: seq<string>)
    requires |parts| >= 1
    requires forall i :: 0 <= i < |parts| ==> sep !in parts[i]
    ensures SplitOn(sep, JoinWith(sep, parts)) == parts
    decreases |parts|
  {
    var tail := parts[1..];
    if |parts| == 1 {
      SplitFreePrefix(sep, parts[0], "");
      assert parts[0] + "" == parts[0];
      assert parts == [parts[0]];
    } else {
      var t := [sep] + JoinWith(sep, tail);
      assert JoinWith(sep, parts) == parts[0] + t;
      SplitJoin(sep, tail);
      assert t[0] == sep && t[1..] == JoinWith(sep, tail);
      assert SplitOn(sep, t) == [""] + tail;
      SplitFreePrefix(sep, parts[0], t);
      assert parts[0] + "" == parts[0];
      assert parts == [parts[0]] + tail;
    }
  }

  /** Joining the pieces of a split gives the original string back. */
  lemma {:induction false} JoinSplit(sep: char, s: string)
    ensures JoinWith(sep, SplitOn(sep, s)) == s
    decreases |s|
  {
    if |s| == 0 {
    } else if s[0] == sep {
      var rest := SplitOn(sep, s[1..]);
      JoinSplit(sep, s[1..]);
      assert ([""] + rest)[1..] == rest;
      assert s == [sep] + s[1..];
    } else {
      var rest := SplitOn(sep, s[1..]);
      JoinSplit(sep, s[1..]);
      var parts := [[s[0]] + rest[0]] + rest[1..];
      assert parts[0] == [s[0]] + rest[0];
      assert parts[1..] == rest[1..];
      if |rest| == 1 {
        assert s == [s[0]] + s[1..];
      } else {
        assert JoinWith(sep, rest) == rest[0] + [sep] + JoinWith(sep, rest[1..]);
        assert s == [s[0]] + s[1..];
      }
    }
  }
}
