/** The game-status enumeration of constant.py and its message table. */
module Constant {
  import opened Wrappers

  /** The six members of the Python `Status` enum, in declaration order. */
  datatype Status = Wait | Ongoing | Foul | XWin | OWin | Draw

  /** `Status.X.value`: the integer attached to each member. */
  function Value(s: Status): (v: int)
    ensures 0 <= v < 6
  {
    match s
    case Wait => 0
    case Ongoing => 1
    case Foul => 2
    case XWin => 3
    case OWin => 4
    case Draw => 5
  }

  /** `Status(v)`: the member with value `v`; Python raises ValueError (here `None`) otherwise. */
  function FromValue(v: int): (r: Option<Status>)
    ensures r.Some? <==> 0 <= v < 6
  {
    if v == 0 then Some(Wait)
    else if v == 1 then Some(Ongoing)
    else if v == 2 then Some(Foul)
    else if v == 3 then Some(XWin)
    else if v == 4 then Some(OWin)
    else if v == 5 then Some(Draw)
    else None
  }

  /** The `_STATUS` dictionary, keyed by member values. */
  const STATUS: map<int, string> :=
    map[Value(Wait) := "wait the game to start",
        Value(Ongoing) := "in the game",
        Value(Foul) := "someone fouls in the game",
        Value(XWin) := "X player wins!",
        Value(OWin) := "O player wins!",
        Value(Draw) := "DRAW!"]

  /** `str(status)`: look the member's value up in the table. */
  function Str(s: Status): (msg: string)
  {
    assert Value(s) in STATUS by { TableKeys(); }
    STATUS[Value(s)]
  }

  /** The members in declaration order. */
  const MEMBERS: seq<Status> := [Wait, Ongoing, Foul, XWin, OWin, Draw]

  /** There are exactly six members, each listed once, at the position given by its value. */
  lemma ExactlySixMembers()
    ensures |MEMBERS| == 6
    ensures forall s: Status :: 0 <= Value(s) < |MEMBERS| && MEMBERS[Value(s)] == s
    ensures forall i, j :: 0 <= i < j < |MEMBERS| ==> MEMBERS[i] != MEMBERS[j]
  {
  }

  /** The member values are 0..5 in declaration order. */
  lemma MemberValues()
    ensures Value(Wait) == 0 && Value(Ongoing) == 1 && Value(Foul) == 2
    ensures Value(XWin) == 3 && Value(OWin) == 4 && Value(Draw) == 5
  {
  }

  /** Taking a member's value and converting it back yields the same member. */
  lemma ValueRoundTrip(s: Status)
    ensures FromValue(Value(s)) == Some(s)
  {
  }

  /** Every value 0..5 belongs to a member, and that member's value is the one given. */
  lemma FromValueOnto(v: int)
    requires 0 <= v < 6
    ensures FromValue(v).Some? && Value(FromValue(v).value) == v
  {
  }

  /** The table has exactly one entry per member: its keys are the six values. */
  lemma TableKeys()
    ensures STATUS.Keys == {0, 1, 2, 3, 4, 5}
  {
  }

  /** `str` yields the table entries. */
  lemma Messages()
    ensures Str(Wait) == "wait the game to start"
    ensures Str(Ongoing) == "in the game"
    ensures Str(Foul) == "someone fouls in the game"
    ensures Str(XWin) == "X player wins!"
    ensures Str(OWin) == "O player wins!"
    ensures Str(Draw) == "DRAW!"
  {
  }

  /** The six messages are pairwise distinct. */
  lemma MessagesDistinct(s: Status, t: Status)
    ensures Str(s) == Str(t) ==> s == t
  {
    Messages();
  }
}
