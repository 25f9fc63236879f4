/** The worked example of a city list: rows for ALICE (100 votes), BOB (150 votes) and ALICE again
    (50 votes) leave ALICE and BOB tied at 150, and the one seen first is ranked first. */
module Scenarios {
  import opened Wrappers
  import opened Records
  import opened Candidates
  import opened Ranking

  /** The three merges: ALICE's second row is folded into her entry, which keeps its place before BOB. */
  lemma {:induction false} ExampleMerges(alice: string, bob: string, na: Option<string>, nb: Option<string>, sq: Option<string>)
    requires alice != bob
    ensures Inserted(Inserted(Inserted([], alice, na, 100, sq), bob, nb, 150, sq), alice, na, 50, sq)
            == [Candidate(alice, na, 150, sq, 0), Candidate(bob, nb, 150, sq, 0)]
  {
    var a, b := Candidate(alice, na, 100, sq, 0), Candidate(bob, nb, 150, sq, 0);
    assert Inserted([], alice, na, 100, sq) == [a];
    assert FindName([a], bob) == None;
    assert Inserted([a], bob, nb, 150, sq) == [a, b];
    assert FindName([a, b], alice) == Some(0);
  }

  /** Two entries with equal votes keep their order: the first is ranked 1st, the second 2nd. */
  lemma {:induction false} EqualVotesKeepOrder(a: Candidate, b: Candidate)
    requires a.votes == b.votes
    ensures Ranked([a, b]) == [a.(position := 1), b.(position := 2)]
  {
    assert [a, b][..1] == [a];
    assert SortByVotes([a]) == [a] by {
      assert [a][..0] == [];
    }
    assert PlaceByVotes(b, [a]) == [a, b] by {
      assert [a][1..] == [];
    }
  }

  /** An entry with more votes moves in front. */
  lemma {:induction false} MoreVotesFirst(a: Candidate, b: Candidate)
    requires a.votes < b.votes
    ensures Ranked([a, b]) == [b.(position := 1), a.(position := 2)]
  {
    assert [a, b][..1] == [a];
    assert SortByVotes([a]) == [a] by {
      assert [a][..0] == [];
    }
    assert PlaceByVotes(b, [a]) == [b, a];
  }
}
