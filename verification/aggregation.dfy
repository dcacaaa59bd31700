/**
 * The vote aggregator of the post GET handler: per-option tallies and the
 * number of distinct voters of one poll, computed from its choice rows.
 */
module Aggregation {
  import opened PostModel
  import Utils

  /** How many rows select option `k`. */
  function CountOption(rows: seq<Choice>, k: int): nat {
    if |rows| == 0 then 0
    else CountOption(rows[..|rows| - 1], k) + (if rows[|rows| - 1].optionIndex == k then 1 else 0)
  }

  /** The users who hold at least one of the rows. */
  function Voters(rows: seq<Choice>): set<int> {
    set c | c in rows :: c.userId
  }

  /** The tally the aggregator should produce for a poll with `optionsCount` options. */
  function TallyOf(rows: seq<Choice>, optionsCount: nat): (tally: seq<int>)
    ensures |tally| == optionsCount
  {
    seq(optionsCount, k => CountOption(rows, k))
  }

  /**
   * The aggregation loop: a zeroed tally of one slot per option, one
   * increment per row at its option index, and a set of the rows' users.
   * A row whose index is outside the options touches no slot.
   */
  method Tally(optionsCount: nat, rows: seq<Choice>) returns (results: seq<int>, answersCount: nat)
    ensures |results| == optionsCount
    ensures forall k :: 0 <= k < optionsCount ==> results[k] == CountOption(rows, k)
    ensures answersCount == |Voters(rows)|
  {
    var tally := new int[optionsCount];
    for i := 0 to optionsCount
      invariant forall k :: 0 <= k < i ==> tally[k] == 0
    {
      tally[i] := 0;
    }
    var users: set<int> := {};
    for i := 0 to |rows|
      invariant forall k :: 0 <= k < optionsCount ==> tally[k] == CountOption(rows[..i], k)
      invariant users == Voters(rows[..i])
    {
      var row := rows[i];
      assert rows[..i + 1][..i] == rows[..i];
      if 0 <= row.optionIndex < optionsCount {
        tally[row.optionIndex] := tally[row.optionIndex] + 1;
      }
      users := users + {row.userId};
    }
    assert rows[..|rows|] == rows;
    results := tally[..];
    answersCount := |users|;
  }

  /** A voter is counted once however many options they pick, so there are never more voters than rows. */
  lemma {:induction false} VotersAtMostRows(rows: seq<Choice>)
    ensures |Voters(rows)| <= |rows|
  {
    if |rows| > 0 {
      var prev := rows[..|rows| - 1];
      VotersAtMostRows(prev);
      assert rows == prev + [rows[|rows| - 1]];
      assert Voters(rows) == Voters(prev) + {rows[|rows| - 1].userId};
    }
  }

  /** When every row's index is in range, the tally adds up to the number of rows. */
  lemma {:induction false} TallySumsToRows(rows: seq<Choice>, optionsCount: nat)
    requires forall c :: c in rows ==> 0 <= c.optionIndex < optionsCount
    ensures Utils.FindSum(TallyOf(rows, optionsCount)) == |rows|
  {
    if |rows| == 0 {
      SumOfZeros(optionsCount);
    } else {
      var prev := rows[..|rows| - 1];
      var last := rows[|rows| - 1];
      TallySumsToRows(prev, optionsCount);
      assert TallyOf(rows, optionsCount)
          == TallyOf(prev, optionsCount)[last.optionIndex := TallyOf(prev, optionsCount)[last.optionIndex] + 1];
      Utils.FindSumIncrement(TallyOf(prev, optionsCount), last.optionIndex);
    }
  }

  /** A tally with no rows is all zeros and sums to zero. */
  lemma {:induction false} SumOfZeros(n: nat)
    ensures Utils.FindSum(TallyOf([], n)) == 0
  {
    if n > 0 {
      SumOfZeros(n - 1);
      assert TallyOf([], n)[..n - 1] == TallyOf([], n - 1);
    }
  }

  /** Rows (u1, 0), (u1, 1), (u2, 0) on options A, B, C give the tally [2, 1, 0] and two voters. */
  lemma TallyExample()
    ensures var rows := [Choice(1, 5, 0), Choice(1, 5, 1), Choice(2, 5, 0)];
      TallyOf(rows, 3) == [2, 1, 0] && |Voters(rows)| == 2
  {
    var rows := [Choice(1, 5, 0), Choice(1, 5, 1), Choice(2, 5, 0)];
    assert rows[..2] == [Choice(1, 5, 0), Choice(1, 5, 1)];
    assert rows[..2][..1] == [Choice(1, 5, 0)];
    assert [Choice(1, 5, 0)][..0] == [];
    assert CountOption(rows, 0) == 2 && CountOption(rows, 1) == 1 && CountOption(rows, 2) == 0;
    assert TallyOf(rows, 3) == [CountOption(rows, 0), CountOption(rows, 1), CountOption(rows, 2)];
    assert Voters(rows) == {1, 2};
  }

  /** The choices of a set that select option `k`. */
  function Selecting(s: set<Choice>, k: int): set<Choice> {
    set c | c in s && c.optionIndex == k
  }

  /** Taking one choice out of a set takes it out of the choices selecting its option, and nothing else. */
  lemma SelectingWithout(s: set<Choice>, last: Choice, k: int)
    requires last in s
    ensures |Selecting(s, k)| == |Selecting(s - {last}, k)| + (if last.optionIndex == k then 1 else 0)
  {
    if last.optionIndex == k {
      assert Selecting(s, k) == Selecting(s - {last}, k) + {last};
    } else {
      assert Selecting(s, k) == Selecting(s - {last}, k);
    }
  }

  /**
   * For rows enumerating a set of choices without repetition, the count of
   * an option is the number of choices of the set that select it.
   */
  lemma {:induction false} CountOptionOfSet(rows: seq<Choice>, s: set<Choice>, k: int)
    requires forall i, j :: 0 <= i < j < |rows| ==> rows[i] != rows[j]
    requires forall c :: c in rows <==> c in s
    ensures CountOption(rows, k) == |Selecting(s, k)|
  {
    if |rows| == 0 {
      assert Selecting(s, k) == {};
    } else {
      var prev := rows[..|rows| - 1];
      var last := rows[|rows| - 1];
      assert rows == prev + [last];
      forall c ensures c in prev <==> c in s - {last} {
        if c in prev {
          var i :| 0 <= i < |prev| && prev[i] == c;
          assert rows[i] == c;
        }
      }
      CountOptionOfSet(prev, s - {last}, k);
      SelectingWithout(s, last, k);
    }
  }
}
