/** `inserir_candidato` (processar_com_bairro.py:159-172): merging one vote into a candidate list
    keyed by the candidate's normalised name. */
module Candidates {
  import opened Wrappers
  import opened Records

  /** Sum of `votos` over a list. */
  function SumVotes(s: seq<Candidate>): int {
    if s == [] then 0 else s[0].votes + SumVotes(s[1..])
  }

  /** No two entries of the list carry the same `nome`. */
  ghost predicate UniqueNames(s: seq<Candidate>) {
    forall i, j :: 0 <= i < j < |s| ==> s[i].name != s[j].name
  }

  /** Some entry of the list carries `name`. */
  ghost predicate HasName(s: seq<Candidate>, name: string) {
    exists i :: 0 <= i < |s| && s[i].name == name
  }

  /** The index the `for c in lista` loop stops at: the first entry named `name`, if any. */
  function FindName(s: seq<Candidate>, name: string): (r: Option<nat>)
    ensures r.Some? ==> r.value < |s| && s[r.value].name == name
                        && forall j :: 0 <= j < r.value ==> s[j].name != name
    ensures r.None? ==> forall j :: 0 <= j < |s| ==> s[j].name != name
  {
    if s == [] then None
    else if s[0].name == name then Some(0)
    else match FindName(s[1..], name)
         case None => None
         case Some(i) => Some(i + 1)
  }

  /** The votes the list credits to `name`: those of its first entry so named, or 0 when there is none. */
  function CandidateVotes(s: seq<Candidate>, name: string): (r: int)
    ensures !HasName(s, name) ==> r == 0
  {
    match FindName(s, name)
    case None => 0
    case Some(i) => s[i].votes
  }

  /** `numero` and `sq_candidato` of the first entry named `name`, if the list has one. */
  function Identity(s: seq<Candidate>, name: string): (r: Option<(Option<string>, Option<string>)>)
    ensures r.Some? <==> HasName(s, name)
  {
    match FindName(s, name)
    case None => None
    case Some(i) => Some((s[i].number, s[i].sq))
  }

  /** The list after `inserir_candidato(lista, nome, numero, votos, sq)`. */
  function Inserted(s: seq<Candidate>, name: string, number: Option<string>, votes: int,
                    sq: Option<string>): seq<Candidate>
  {
    match FindName(s, name)
    case Some(i) => s[i := s[i].(votes := s[i].votes + votes)]
    case None => s + [Candidate(name, number, votes, sq, 0)]
  }

  /** `inserir_candidato`: scan the list; on the first entry named `nome` add `votos` to it and stop;
      when none is named so, append a new entry with `posicao` 0. */
  method InsertCandidate(lista: seq<Candidate>, nome: string, numero: Option<string>, votos: int,
                         sq: Option<string>) returns (r: seq<Candidate>)
    ensures r == Inserted(lista, nome, numero, votos, sq)
    ensures forall i :: 0 <= i < |lista| && lista[i].name == nome
                        && (forall j :: 0 <= j < i ==> lista[j].name != nome)
                        ==> r == lista[i := lista[i].(votes := lista[i].votes + votos)]
    ensures (forall i :: 0 <= i < |lista| ==> lista[i].name != nome)
            ==> r == lista + [Candidate(nome, numero, votos, sq, 0)]
  {
    var i := 0;
    while i < |lista|
      invariant 0 <= i <= |lista|
      invariant forall j :: 0 <= j < i ==> lista[j].name != nome
    {
      if lista[i].name == nome {
        r := lista[i := lista[i].(votes := lista[i].votes + votos)];
        return;
      }
      i := i + 1;
    }
    r := lista + [Candidate(nome, numero, votos, sq, 0)];
  }

  lemma {:induction false} SumVotesAppend(a: seq<Candidate>, b: seq<Candidate>)
    ensures SumVotes(a + b) == SumVotes(a) + SumVotes(b)
  {
    if a == [] {
      assert a + b == b;
    } else {
      assert (a + b)[1..] == a[1..] + b;
      SumVotesAppend(a[1..], b);
    }
  }

  /** Adding `d` to the votes of one entry adds `d` to the sum. */
  lemma {:induction false} SumVotesBump(s: seq<Candidate>, i: int, d: int)
    requires 0 <= i < |s|
    ensures SumVotes(s[i := s[i].(votes := s[i].votes + d)]) == SumVotes(s) + d
  {
    if i > 0 {
      assert s[i := s[i].(votes := s[i].votes + d)][1..] == s[1..][i - 1 := s[i].(votes := s[i].votes + d)];
      SumVotesBump(s[1..], i - 1, d);
    } else {
      assert s[i := s[i].(votes := s[i].votes + d)][1..] == s[1..];
    }
  }

  /** Merging grows the list's vote sum by exactly the merged votes. */
  lemma {:induction false} InsertedSum(s: seq<Candidate>, name: string, number: Option<string>, votes: int, sq: Option<string>)
    ensures SumVotes(Inserted(s, name, number, votes, sq)) == SumVotes(s) + votes
  {
    match FindName(s, name)
    case Some(i) => SumVotesBump(s, i, votes);
    case None =>
      SumVotesAppend(s, [Candidate(name, number, votes, sq, 0)]);
      assert SumVotes([Candidate(name, number, votes, sq, 0)]) == votes;
  }

  /** Merging keeps names unique, the merged name is in the list afterwards, and no other name is added. */
  lemma {:induction false} InsertedUnique(s: seq<Candidate>, name: string, number: Option<string>, votes: int, sq: Option<string>)
    requires UniqueNames(s)
    ensures UniqueNames(Inserted(s, name, number, votes, sq))
    ensures HasName(Inserted(s, name, number, votes, sq), name)
    ensures forall n :: HasName(Inserted(s, name, number, votes, sq), n) <==> n == name || HasName(s, n)
  {
    var r := Inserted(s, name, number, votes, sq);
    match FindName(s, name)
    case Some(i) =>
      assert r[i].name == name;
      forall n | HasName(s, n) ensures HasName(r, n) {
        var j :| 0 <= j < |s| && s[j].name == n;
        assert r[j].name == n;
      }
    case None =>
      assert r[|s|].name == name;
      forall n | HasName(s, n) ensures HasName(r, n) {
        var j :| 0 <= j < |s| && s[j].name == n;
        assert r[j].name == n;
      }
  }

  /** A name that is in the list: merging changes only that entry's `votos`; `numero`, `sq_candidato`,
      `posicao`, the length and every other entry stay as they were. */
  lemma {:induction false} InsertedExisting(s: seq<Candidate>, i: int, number: Option<string>, votes: int, sq: Option<string>)
    requires UniqueNames(s) && 0 <= i < |s|
    ensures Inserted(s, s[i].name, number, votes, sq) == s[i := s[i].(votes := s[i].votes + votes)]
  {
  }

  /** Two merges under the same name are one merge of the summed votes, and the first merge's `numero`
      and `sq_candidato` are the ones kept. */
  lemma {:induction false} InsertedTwice(s: seq<Candidate>, name: string, n1: Option<string>, v1: int, sq1: Option<string>,
                      n2: Option<string>, v2: int, sq2: Option<string>)
    ensures Inserted(Inserted(s, name, n1, v1, sq1), name, n2, v2, sq2) == Inserted(s, name, n1, v1 + v2, sq1)
  {
    var t := Inserted(s, name, n1, v1, sq1);
    match FindName(s, name)
    case Some(i) =>
      assert forall j :: 0 <= j < |s| ==> t[j].name == s[j].name;
      assert FindName(t, name) == Some(i);
    case None =>
      assert t[|s|].name == name;
      assert FindName(t, name) == Some(|s|);
  }

  /** Two lists whose entries carry the same names, index by index, stop `for c in lista` at the same place. */
  lemma {:induction false} FindNameSameNames(s: seq<Candidate>, t: seq<Candidate>, name: string)
    requires |s| == |t| && forall j :: 0 <= j < |s| ==> s[j].name == t[j].name
    ensures FindName(s, name) == FindName(t, name)
  {
    match FindName(s, name)
    case None =>
      assert forall j :: 0 <= j < |t| ==> t[j].name != name;
    case Some(i) =>
      assert t[i].name == name;
  }

  /** Merging credits `votes` to the merged name and leaves every other name's votes as they were. */
  lemma {:induction false} InsertedVotes(s: seq<Candidate>, name: string, number: Option<string>, votes: int,
                                        sq: Option<string>, n: string)
    ensures CandidateVotes(Inserted(s, name, number, votes, sq), n) == CandidateVotes(s, n) + (if n == name then votes else 0)
  {
    var t := Inserted(s, name, number, votes, sq);
    match FindName(s, name)
    case Some(i) =>
      FindNameSameNames(s, t, n);
    case None =>
      assert t[..|s|] == s;
      assert t[|s|].name == name;
      match FindName(s, n)
      case Some(k) =>
        assert t[k] == s[k];
        assert forall j :: 0 <= j < k ==> t[j].name != n by {
          forall j | 0 <= j < k ensures t[j].name != n { assert t[j] == s[j]; }
        }
      case None =>
        assert forall j :: 0 <= j < |s| ==> t[j].name != n by {
          forall j | 0 <= j < |s| ensures t[j].name != n { assert t[j] == s[j]; }
        }
        if n == name {
          assert FindName(t, n) == Some(|s|);
        } else {
          assert forall j :: 0 <= j < |t| ==> t[j].name != n;
        }
  }

  /** Merging keeps the `numero` and `sq_candidato` of an entry already present under the merged name,
      and gives a new entry the merged row's. */
  lemma {:induction false} InsertedIdentity(s: seq<Candidate>, name: string, number: Option<string>, votes: int,
                                           sq: Option<string>, n: string)
    ensures Identity(Inserted(s, name, number, votes, sq), n)
            == if HasName(s, n) then Identity(s, n) else if n == name then Some((number, sq)) else None
  {
    var t := Inserted(s, name, number, votes, sq);
    match FindName(s, name)
    case Some(i) =>
      FindNameSameNames(s, t, n);
    case None =>
      assert t[..|s|] == s;
      assert t[|s|].name == name;
      match FindName(s, n)
      case Some(k) =>
        assert t[k] == s[k];
        assert forall j :: 0 <= j < k ==> t[j].name != n by {
          forall j | 0 <= j < k ensures t[j].name != n { assert t[j] == s[j]; }
        }
      case None =>
        assert forall j :: 0 <= j < |s| ==> t[j].name != n by {
          forall j | 0 <= j < |s| ensures t[j].name != n { assert t[j] == s[j]; }
        }
        if n == name {
          assert FindName(t, n) == Some(|s|);
        } else {
          assert forall j :: 0 <= j < |t| ==> t[j].name != n;
        }
  }
}
