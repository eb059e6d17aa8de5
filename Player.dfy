/** The three players, their fixed turn order, and the earnings ledger. */
module Players {

  datatype Player = Player1 | Player2 | Player3

  /** The player who opens the game. */
  function Init(): (p: Player)
    ensures Index(p) == 0
  {
    Player1
  }

  /** The slot of a player in the earnings array. */
  function Index(p: Player): nat {
    match p
    case Player1 => 0
    case Player2 => 1
    case Player3 => 2
  }

  /** The player whose turn follows `p`: one step forward in the order 1, 2, 3, wrapping. */
  function Next(p: Player): (q: Player)
    ensures Index(q) == (Index(p) + 1) % 3
  {
    if p == Player1 then Player2
    else if p == Player2 then Player3
    else Player1
  }

  /** The rotation is a 3-cycle: it never keeps the turn, and three steps come back. */
  lemma NextIsThreeCycle(p: Player)
    ensures Next(p) != p && Next(Next(p)) != p
    ensures Next(Next(Next(p))) == p
  {
  }

  /** The earnings of the three players, one array slot each. */
  class Ledger {
    const earnings: array<int>

    ghost predicate Valid()
      reads this
    {
      earnings.Length == 3
    }

    /** Every balance starts at zero. */
    constructor ()
      ensures Valid() && fresh(earnings)
      ensures earnings[..] == [0, 0, 0]
    {
      earnings := new int[] [0, 0, 0];
    }

    /** The balance of player `p`. */
    function GetEarnings(p: Player): (e: int)
      reads this, earnings
      requires Valid()
      ensures e == earnings[Index(p)]
    {
      if p == Player1 then earnings[0]
      else if p == Player2 then earnings[1]
      else earnings[2]
    }

    /** Adds `earning` to the balance of `p`; the other balances stay as they were. */
    method SetEarnings(p: Player, earning: int)
      requires Valid()
      modifies earnings
      ensures Valid()
      ensures earnings[..] == old(earnings[..])[Index(p) := old(GetEarnings(p)) + earning]
    {
      if p == Player1 {
        earnings[0] := earnings[0] + earning;
      } else if p == Player2 {
        earnings[1] := earnings[1] + earning;
      } else {
        earnings[2] := earnings[2] + earning;
      }
    }

    /** Sets the balance of `p` to zero; the other balances stay as they were. */
    method ResetEarnings(p: Player)
      requires Valid()
      modifies earnings
      ensures Valid()
      ensures earnings[..] == old(earnings[..])[Index(p) := 0]
    {
      if p == Player1 {
        earnings[0] := 0;
      } else if p == Player2 {
        earnings[1] := 0;
      } else {
        earnings[2] := 0;
      }
    }
  }
}
