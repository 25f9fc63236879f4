/** The ranking of one candidate list in `ordenar_posicoes` (processar_com_bairro.py:185-188 and
    191-194): `lista.sort(key=lambda x: x["votos"], reverse=True)` followed by
    `for i, c in enumerate(lista, start=1): c["posicao"] = i`. */
module Ranking {
  import opened Records
  import opened Candidates
  import opened Wrappers

  /** Votes never increase along the list. */
  ghost predicate NonIncreasing(s: seq<Candidate>) {
    forall i, j :: 0 <= i < j < |s| ==> s[i].votes >= s[j].votes
  }

  /** Inserts `c` into a list ordered by votes, descending, behind every entry with at least as many
      votes: this is what makes the sort stable. */
  function PlaceByVotes(c: Candidate, t: seq<Candidate>): (r: seq<Candidate>)
    ensures |r| == |t| + 1
    ensures multiset(r) == multiset(t) + multiset{c}
  {
    if t == [] then [c]
    else if t[0].votes >= c.votes then
      assert t == [t[0]] + t[1..];
      [t[0]] + PlaceByVotes(c, t[1..])
    else [c] + t
  }

  /** Python's stable `sort(key=votos, reverse=True)`, written as an insertion sort: each entry in turn
      is placed behind all entries with at least as many votes. */
  function SortByVotes(s: seq<Candidate>): (r: seq<Candidate>)
    ensures |r| == |s|
    ensures multiset(r) == multiset(s)
  {
    if s == [] then []
    else
      assert s == s[..|s| - 1] + [s[|s| - 1]];
      PlaceByVotes(s[|s| - 1], SortByVotes(s[..|s| - 1]))
  }

  /** The entries of `s` with exactly `v` votes, in their order in `s`. */
  function WithVotes(s: seq<Candidate>, v: int): seq<Candidate> {
    if s == [] then []
    else (if s[0].votes == v then [s[0]] else []) + WithVotes(s[1..], v)
  }

  lemma {:induction false} WithVotesAppend(a: seq<Candidate>, b: seq<Candidate>, v: int)
    ensures WithVotes(a + b, v) == WithVotes(a, v) + WithVotes(b, v)
  {
    if a == [] {
      assert a + b == b;
    } else {
      var h := if a[0].votes == v then [a[0]] else [];
      assert (a + b)[0] == a[0];
      calc {
        WithVotes(a + b, v);
        h + WithVotes((a + b)[1..], v);
        { assert (a + b)[1..] == a[1..] + b; }
        h + WithVotes(a[1..] + b, v);
        { WithVotesAppend(a[1..], b, v); }
        h + (WithVotes(a[1..], v) + WithVotes(b, v));
        WithVotes(a, v) + WithVotes(b, v);
      }
    }
  }

  lemma {:induction false} WithVotesNone(s: seq<Candidate>, v: int)
    requires forall i :: 0 <= i < |s| ==> s[i].votes < v
    ensures WithVotes(s, v) == []
  {
    if s != [] {
      WithVotesNone(s[1..], v);
    }
  }

  /** An entry of a permutation of `t + [c]` is an entry of `t` or is `c`. */
  lemma {:induction false} MemberOfPlaced(r: seq<Candidate>, t: seq<Candidate>, c: Candidate, j: int)
    requires multiset(r) == multiset(t) + multiset{c} && 0 <= j < |r|
    ensures r[j] == c || exists k :: 0 <= k < |t| && t[k] == r[j]
  {
    assert r[j] in multiset(r);
    if r[j] != c {
      assert r[j] in multiset(t);
    }
  }

  lemma {:induction false} PlaceByVotesSorted(c: Candidate, t: seq<Candidate>)
    requires NonIncreasing(t)
    ensures NonIncreasing(PlaceByVotes(c, t))
  {
    if t != [] && t[0].votes >= c.votes {
      var rest := PlaceByVotes(c, t[1..]);
      PlaceByVotesSorted(c, t[1..]);
      forall j | 0 <= j < |rest| ensures t[0].votes >= rest[j].votes {
        MemberOfPlaced(rest, t[1..], c, j);
      }
    }
  }

  /** The sorted list has votes non-increasing. */
  lemma {:induction false} SortByVotesSorted(s: seq<Candidate>)
    ensures NonIncreasing(SortByVotes(s))
  {
    if s != [] {
      SortByVotesSorted(s[..|s| - 1]);
      PlaceByVotesSorted(s[|s| - 1], SortByVotes(s[..|s| - 1]));
    }
  }

  /** Putting the same entry in front of two lists whose filters differ by a suffix keeps that suffix. */
  lemma {:induction false} ConsStable(h: Candidate, tail: seq<Candidate>, rest: seq<Candidate>, x: seq<Candidate>, v: int)
    requires WithVotes(rest, v) == WithVotes(tail, v) + x
    ensures WithVotes([h] + rest, v) == WithVotes([h] + tail, v) + x
  {
    WithVotesAppend([h], rest, v);
    WithVotesAppend([h], tail, v);
    assert WithVotes([h], v) + (WithVotes(tail, v) + x) == (WithVotes([h], v) + WithVotes(tail, v)) + x;
  }

  /** The step of `PlaceByVotesStable` where `c` goes in front of `t`. */
  lemma {:induction false} PlaceInFrontStable(c: Candidate, t: seq<Candidate>, v: int)
    requires NonIncreasing(t) && (t == [] || t[0].votes < c.votes)
    ensures WithVotes(PlaceByVotes(c, t), v) == WithVotes(t, v) + WithVotes([c], v)
  {
    assert PlaceByVotes(c, t) == [c] + t;
    WithVotesAppend([c], t, v);
    if c.votes == v {
      WithVotesNone(t, v);
      assert WithVotes(t, v) + WithVotes([c], v) == WithVotes([c], v);
    } else {
      assert WithVotes([c], v) == [] by {
        assert [c][1..] == [];
      }
      assert WithVotes(t, v) + WithVotes([c], v) == WithVotes(t, v);
    }
  }

  /** `c` is placed behind every entry with the same count. */
  lemma {:induction false} PlaceByVotesStable(c: Candidate, t: seq<Candidate>, v: int)
    requires NonIncreasing(t)
    ensures WithVotes(PlaceByVotes(c, t), v) == WithVotes(t, v) + WithVotes([c], v)
  {
    if t != [] && t[0].votes >= c.votes {
      PlaceByVotesStable(c, t[1..], v);
      ConsStable(t[0], t[1..], PlaceByVotes(c, t[1..]), WithVotes([c], v), v);
      assert t == [t[0]] + t[1..];
    } else {
      PlaceInFrontStable(c, t, v);
    }
  }

  /** Stability: for every vote count, the entries with that count keep their relative order. */
  lemma {:induction false} SortByVotesStable(s: seq<Candidate>, v: int)
    ensures WithVotes(SortByVotes(s), v) == WithVotes(s, v)
  {
    if s != [] {
      var init, last := s[..|s| - 1], s[|s| - 1];
      SortByVotesSorted(init);
      calc {
        WithVotes(SortByVotes(s), v);
        WithVotes(PlaceByVotes(last, SortByVotes(init)), v);
        { PlaceByVotesStable(last, SortByVotes(init), v); }
        WithVotes(SortByVotes(init), v) + WithVotes([last], v);
        { SortByVotesStable(init, v); }
        WithVotes(init, v) + WithVotes([last], v);
        { WithVotesAppend(init, [last], v); }
        WithVotes(init + [last], v);
        { assert s == init + [last]; }
        WithVotes(s, v);
      }
    }
  }

  lemma {:induction false} PlaceByVotesSum(c: Candidate, t: seq<Candidate>)
    ensures SumVotes(PlaceByVotes(c, t)) == SumVotes(t) + c.votes
  {
    if t != [] && t[0].votes >= c.votes {
      PlaceByVotesSum(c, t[1..]);
      assert ([t[0]] + PlaceByVotes(c, t[1..]))[1..] == PlaceByVotes(c, t[1..]);
    } else if t != [] {
      assert ([c] + t)[1..] == t;
    }
  }

  /** The vote sum of a non-empty list is that of all but its last entry plus the last entry's votes. */
  lemma {:induction false} SumVotesLast(s: seq<Candidate>)
    requires s != []
    ensures SumVotes(s) == SumVotes(s[..|s| - 1]) + s[|s| - 1].votes
  {
    var init, last := s[..|s| - 1], s[|s| - 1];
    SumVotesAppend(init, [last]);
    assert SumVotes([last]) == last.votes;
    assert s == init + [last];
  }

  /** Sorting keeps the list's vote sum. */
  lemma {:induction false} SortByVotesSum(s: seq<Candidate>)
    ensures SumVotes(SortByVotes(s)) == SumVotes(s)
  {
    if s != [] {
      var init, last := s[..|s| - 1], s[|s| - 1];
      assert SortByVotes(s) == PlaceByVotes(last, SortByVotes(init));
      SortByVotesSum(init);
      PlaceByVotesSum(last, SortByVotes(init));
      SumVotesLast(s);
    }
  }

  /** Two lists holding the same entries hold the same names. */
  lemma {:induction false} PermutationNames(a: seq<Candidate>, b: seq<Candidate>, n: string)
    requires multiset(a) == multiset(b)
    ensures HasName(a, n) <==> HasName(b, n)
  {
    if HasName(a, n) {
      var i :| 0 <= i < |a| && a[i].name == n;
      assert a[i] in multiset(b);
    }
    if HasName(b, n) {
      var i :| 0 <= i < |b| && b[i].name == n;
      assert b[i] in multiset(a);
    }
  }

  lemma {:induction false} PlaceByVotesUnique(c: Candidate, t: seq<Candidate>)
    requires UniqueNames(t) && !HasName(t, c.name)
    ensures UniqueNames(PlaceByVotes(c, t))
  {
    if t != [] && t[0].votes >= c.votes {
      var rest := PlaceByVotes(c, t[1..]);
      PlaceByVotesUnique(c, t[1..]);
      forall j | 0 <= j < |rest| ensures rest[j].name != t[0].name {
        MemberOfPlaced(rest, t[1..], c, j);
        assert t[0].name != c.name;
      }
      assert PlaceByVotes(c, t) == [t[0]] + rest;
    } else if t != [] {
      assert PlaceByVotes(c, t) == [c] + t;
    }
  }

  /** Sorting keeps names unique. */
  lemma {:induction false} SortByVotesUnique(s: seq<Candidate>)
    requires UniqueNames(s)
    ensures UniqueNames(SortByVotes(s))
  {
    if s != [] {
      var init, last := s[..|s| - 1], s[|s| - 1];
      SortByVotesUnique(init);
      assert !HasName(init, last.name);
      PermutationNames(SortByVotes(init), init, last.name);
      PlaceByVotesUnique(last, SortByVotes(init));
    }
  }

  /** The list as `ordenar_posicoes` leaves it: sorted, then `posicao` set to the 1-based index. */
  function Ranked(s: seq<Candidate>): seq<Candidate> {
    var t := SortByVotes(s);
    seq(|t|, i requires 0 <= i < |t| => t[i].(position := i + 1))
  }

  /** A finished list: sorted by votes, descending, with positions 1..N in order. */
  ghost predicate IsRanked(s: seq<Candidate>) {
    && NonIncreasing(s)
    && forall i :: 0 <= i < |s| ==> s[i].position == i + 1
  }

  /** The ranked list is sorted with positions 1..N, keeps the sum and the uniqueness of names, and
      apart from `posicao` is the stable sort of its input. */
  lemma {:induction false} RankedProperties(s: seq<Candidate>)
    ensures |Ranked(s)| == |s| && IsRanked(Ranked(s))
    ensures forall i :: 0 <= i < |s| ==> Ranked(s)[i] == SortByVotes(s)[i].(position := i + 1)
    ensures SumVotes(Ranked(s)) == SumVotes(s)
    ensures UniqueNames(s) ==> UniqueNames(Ranked(s))
  {
    var t, r := SortByVotes(s), Ranked(s);
    assert |r| == |t| && forall i :: 0 <= i < |r| ==> r[i] == t[i].(position := i + 1);
    assert NonIncreasing(r) by {
      SortByVotesSorted(s);
    }
    assert SumVotes(r) == SumVotes(s) by {
      SortByVotesSum(s);
      SumVotesSamePerEntry(r, t);
    }
    if UniqueNames(s) {
      assert UniqueNames(r) by {
        SortByVotesUnique(s);
      }
    }
  }

  lemma {:induction false} SumVotesSamePerEntry(a: seq<Candidate>, b: seq<Candidate>)
    requires |a| == |b| && forall i :: 0 <= i < |a| ==> a[i].votes == b[i].votes
    ensures SumVotes(a) == SumVotes(b)
  {
    if a != [] {
      SumVotesSamePerEntry(a[1..], b[1..]);
    }
  }

  /** Every entry with `posicao` reset to the value a fresh entry has. */
  function Unpositioned(s: seq<Candidate>): seq<Candidate> {
    seq(|s|, i requires 0 <= i < |s| => s[i].(position := 0))
  }

  /** A list in which no entry has been ranked yet (every list while rows are being read) is ranked into
      a permutation of itself: only the positions differ. */
  lemma {:induction false} RankedIsPermutation(s: seq<Candidate>)
    requires forall i :: 0 <= i < |s| ==> s[i].position == 0
    ensures Unpositioned(Ranked(s)) == SortByVotes(s)
    ensures multiset(Unpositioned(Ranked(s))) == multiset(s)
  {
    var t := SortByVotes(s);
    forall i | 0 <= i < |t| ensures t[i].position == 0 {
      assert t[i] in multiset(s);
    }
    assert Unpositioned(Ranked(s)) == t;
  }

  /** Two lists holding the same entries, each without a repeated name, credit every name the same votes. */
  lemma {:induction false} PermutationVotes(a: seq<Candidate>, b: seq<Candidate>, n: string)
    requires multiset(a) == multiset(b) && UniqueNames(a) && UniqueNames(b)
    ensures CandidateVotes(a, n) == CandidateVotes(b, n)
  {
    match FindName(a, n)
    case Some(i) =>
      assert a[i] in multiset(b);
      var j :| 0 <= j < |b| && b[j] == a[i];
      assert FindName(b, n) == Some(j);
    case None =>
      forall k | 0 <= k < |b| ensures b[k].name != n {
        assert b[k] in multiset(a);
      }
  }

  /** Ranking a list without repeated names credits every name the votes it had. */
  lemma {:induction false} RankedVotes(s: seq<Candidate>, n: string)
    requires UniqueNames(s)
    ensures CandidateVotes(Ranked(s), n) == CandidateVotes(s, n)
  {
    var t := SortByVotes(s);
    RankedProperties(s);
    FindNameSameNames(Ranked(s), t, n);
    SortByVotesUnique(s);
    PermutationVotes(t, s, n);
  }

  /** Two lists holding the same entries, each without a repeated name, give every name the same
      `numero` and `sq_candidato`. */
  lemma {:induction false} PermutationIdentity(a: seq<Candidate>, b: seq<Candidate>, n: string)
    requires multiset(a) == multiset(b) && UniqueNames(a) && UniqueNames(b)
    ensures Identity(a, n) == Identity(b, n)
  {
    match FindName(a, n)
    case Some(i) =>
      assert a[i] in multiset(b);
      var j :| 0 <= j < |b| && b[j] == a[i];
      assert FindName(b, n) == Some(j);
    case None =>
      forall k | 0 <= k < |b| ensures b[k].name != n {
        assert b[k] in multiset(a);
      }
  }

  /** Ranking keeps the set of names in a list. */
  lemma {:induction false} RankedNames(s: seq<Candidate>, n: string)
    ensures HasName(Ranked(s), n) <==> HasName(s, n)
  {
    var t := SortByVotes(s);
    RankedProperties(s);
    FindNameSameNames(Ranked(s), t, n);
    PermutationNames(t, s, n);
  }

  /** Ranking a list without repeated names keeps every name's `numero` and `sq_candidato`. */
  lemma {:induction false} RankedIdentity(s: seq<Candidate>, n: string)
    requires UniqueNames(s)
    ensures Identity(Ranked(s), n) == Identity(s, n)
  {
    var t := SortByVotes(s);
    RankedProperties(s);
    FindNameSameNames(Ranked(s), t, n);
    SortByVotesUnique(s);
    PermutationIdentity(t, s, n);
  }

  /** One list of `ordenar_posicoes`: the in-place sort, then the `enumerate(..., start=1)` loop. */
  method RankList(lista: seq<Candidate>) returns (r: seq<Candidate>)
    ensures r == Ranked(lista)
    ensures |r| == |lista| && IsRanked(r)
    ensures forall i :: 0 <= i < |r| ==> r[i] == SortByVotes(lista)[i].(position := i + 1)
  {
    r := SortByVotes(lista);
    ghost var sorted := r;
    SortByVotesSorted(lista);
    var i := 0;
    while i < |r|
      invariant 0 <= i <= |r| == |sorted|
      invariant forall k :: 0 <= k < i ==> r[k] == sorted[k].(position := k + 1)
      invariant forall k :: i <= k < |r| ==> r[k] == sorted[k]
    {
      r := r[i := r[i].(position := i + 1)];
      i := i + 1;
    }
    assert r == Ranked(lista);
  }
}
