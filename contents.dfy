/** What the summary holds besides its totals (processar_com_bairro.py:107-194). It has the offices,
    cities, neighbourhoods and candidate entries of exactly the rows the loop reads. Each entry keeps
    the `numero` and `sq_candidato` of the first row that created it, through the loop and through
    `ordenar_posicoes`. */
module Contents {
  import opened Wrappers
  import opened Text
  import opened Records
  import opened Candidates
  import opened Ranking
  import opened Aggregation
  import opened Conservation
  import opened Finalize

  /** Some row is collected into `w`. */
  ghost predicate Occurs(rows: seq<VoteRow>, lk: LookupTables, w: Where) {
    exists i :: 0 <= i < |rows| && RowIn(rows[i], lk, w)
  }

  /** The summary has the office, city, neighbourhood or candidate entry that `w` names; for
      `Attributed`, the city has at least one neighbourhood. */
  ghost predicate Present(s: Summary, w: Where) {
    match w
    case InOffice(o) => o in s
    case InCity(o, c) => o in s && c in s[o].cities
    case InNeighbourhood(o, c, b) => o in s && c in s[o].cities && b in s[o].cities[c].neighbourhoods
    case Attributed(o, c) => o in s && c in s[o].cities && s[o].cities[c].neighbourhoods != map[]
    case CandidateInCity(o, c, n) => o in s && c in s[o].cities && HasName(s[o].cities[c].candidates, n)
    case CandidateInNeighbourhood(o, c, b, n) =>
      && o in s && c in s[o].cities && b in s[o].cities[c].neighbourhoods
      && HasName(s[o].cities[c].neighbourhoods[b].candidates, n)
  }

  /** `numero` and `sq_candidato` of the candidate entry that `w` names, if there is one. */
  ghost function EntryOf(s: Summary, w: Where): Option<(Option<string>, Option<string>)> {
    match w
    case CandidateInCity(o, c, n) =>
      if o in s && c in s[o].cities then Identity(s[o].cities[c].candidates, n) else None
    case CandidateInNeighbourhood(o, c, b, n) =>
      if o in s && c in s[o].cities && b in s[o].cities[c].neighbourhoods
      then Identity(s[o].cities[c].neighbourhoods[b].candidates, n) else None
    case _ => None
  }

  /** The `sq` of a row (lines 124-128). It is the `SQ_CANDIDATO` cell when the file has that
      column. Otherwise it is the roster's entry for (normalised office, number), or none. */
  function RowSq(row: VoteRow, lk: LookupTables): Option<string> {
    var key := RosterKey(Normalize(row.office), row.number);
    if lk.sqColumn then row.sq else if key in lk.roster then lk.roster[key] else None
  }

  /** `numero` and `sq` of the first row collected into the candidate entry `w`. */
  ghost function FirstEntry(rows: seq<VoteRow>, lk: LookupTables, w: Where): Option<(Option<string>, Option<string>)> {
    if rows == [] then None
    else
      var earlier := FirstEntry(rows[..|rows| - 1], lk, w);
      var last := rows[|rows| - 1];
      if earlier.Some? then earlier
      else if PerCandidate(w) && RowIn(last, lk, w) then Some((last.number, RowSq(last, lk)))
      else None
  }

  /** One vote adds exactly the scopes and the entries it belongs to, creating each on first use;
      nothing is removed. */
  lemma {:induction false} AddVotePresent(s: Summary, v: Vote, w: Where)
    ensures Present(AddVote(s, v), w) <==> Present(s, w) || Matches(v, w)
  {
    if w.office == v.office && !w.InOffice? && w.city == v.city {
      var o := if v.office in s then s[v.office] else EmptyOffice;
      var c := if v.city in o.cities then o.cities[v.city] else EmptyCity;
      match w
      case CandidateInCity(_, _, n) =>
        InsertedIdentity(c.candidates, v.name, v.number, v.votes, v.sq, n);
      case CandidateInNeighbourhood(_, _, b, n) =>
        if v.neighbourhood == Some(b) {
          var sc := if b in c.neighbourhoods then c.neighbourhoods[b] else EmptyScope;
          InsertedIdentity(sc.candidates, v.name, v.number, v.votes, v.sq, n);
        }
      case Attributed(_, _) =>
        if v.neighbourhood.Some? {
          assert v.neighbourhood.value in AddToCity(c, v).neighbourhoods;
        }
      case _ =>
    }
  }

  /** One vote keeps the `numero` and `sq_candidato` of an entry already present. An entry it
      creates gets the vote's own. */
  lemma {:induction false} AddVoteEntry(s: Summary, v: Vote, w: Where)
    ensures EntryOf(AddVote(s, v), w)
            == if EntryOf(s, w).Some? then EntryOf(s, w)
               else if PerCandidate(w) && Matches(v, w) then Some((v.number, v.sq)) else None
  {
    if w.office == v.office && PerCandidate(w) && w.city == v.city {
      var o := if v.office in s then s[v.office] else EmptyOffice;
      var c := if v.city in o.cities then o.cities[v.city] else EmptyCity;
      match w
      case CandidateInCity(_, _, n) =>
        InsertedIdentity(c.candidates, v.name, v.number, v.votes, v.sq, n);
      case CandidateInNeighbourhood(_, _, b, n) =>
        if v.neighbourhood == Some(b) {
          var sc := if b in c.neighbourhoods then c.neighbourhoods[b] else EmptyScope;
          InsertedIdentity(sc.candidates, v.name, v.number, v.votes, v.sq, n);
        }
    }
  }

  /** Some row is collected into `w` exactly when an earlier row is or the last row is. */
  lemma {:induction false} OccursLast(rows: seq<VoteRow>, lk: LookupTables, w: Where)
    requires rows != []
    ensures Occurs(rows, lk, w) <==> Occurs(rows[..|rows| - 1], lk, w) || RowIn(rows[|rows| - 1], lk, w)
  {
    if Occurs(rows, lk, w) {
      OccursSplit(rows, lk, w);
    }
    if Occurs(rows[..|rows| - 1], lk, w) {
      OccursExtend(rows, lk, w);
    }
  }

  lemma {:induction false} OccursSplit(rows: seq<VoteRow>, lk: LookupTables, w: Where)
    requires rows != [] && Occurs(rows, lk, w)
    ensures Occurs(rows[..|rows| - 1], lk, w) || RowIn(rows[|rows| - 1], lk, w)
  {
    var init := rows[..|rows| - 1];
    var i :| 0 <= i < |rows| && RowIn(rows[i], lk, w);
    if i < |init| {
      assert init[i] == rows[i];
    }
  }

  lemma {:induction false} OccursExtend(rows: seq<VoteRow>, lk: LookupTables, w: Where)
    requires rows != [] && Occurs(rows[..|rows| - 1], lk, w)
    ensures Occurs(rows, lk, w)
  {
    var init := rows[..|rows| - 1];
    var i :| 0 <= i < |init| && RowIn(init[i], lk, w);
    assert rows[i] == init[i];
  }

  /** After the loop the summary has an office, a city, a neighbourhood or a candidate entry
      exactly when some row is collected into it. This holds whatever the row's count, `0` included. */
  lemma {:induction false} IngestPresent(rows: seq<VoteRow>, lk: LookupTables, w: Where)
    ensures Present(Ingest(rows, lk), w) <==> Occurs(rows, lk, w)
  {
    if rows != [] {
      var last := rows[|rows| - 1];
      IngestPresent(rows[..|rows| - 1], lk, w);
      OccursLast(rows, lk, w);
      ResolveCollects(last, lk, w);
      match Resolve(last, lk)
      case None =>
      case Some(v) => AddVotePresent(Ingest(rows[..|rows| - 1], lk), v, w);
    }
  }

  /** After the loop every candidate entry carries the `numero` and `sq` of the first row collected
      into it. */
  lemma {:induction false} IngestEntries(rows: seq<VoteRow>, lk: LookupTables, w: Where)
    ensures EntryOf(Ingest(rows, lk), w) == FirstEntry(rows, lk, w)
  {
    if rows != [] {
      var last := rows[|rows| - 1];
      IngestEntries(rows[..|rows| - 1], lk, w);
      ResolveCollects(last, lk, w);
      match Resolve(last, lk)
      case None =>
      case Some(v) =>
        assert v.number == last.number && v.sq == RowSq(last, lk);
        AddVoteEntry(Ingest(rows[..|rows| - 1], lk), v, w);
    }
  }

  /** No row collected into `w` means no entry. */
  lemma {:induction false} FirstEntryNone(rows: seq<VoteRow>, lk: LookupTables, w: Where)
    requires forall j :: 0 <= j < |rows| ==> !RowIn(rows[j], lk, w)
    ensures FirstEntry(rows, lk, w) == None
  {
    if rows != [] {
      FirstEntryNone(rows[..|rows| - 1], lk, w);
    }
  }

  /** The entry's `numero` and `sq` are those of the first row, in file order, that is collected into it. */
  lemma {:induction false} FirstEntryIsFirst(rows: seq<VoteRow>, lk: LookupTables, w: Where, i: int)
    requires PerCandidate(w) && 0 <= i < |rows| && RowIn(rows[i], lk, w)
    requires forall j :: 0 <= j < i ==> !RowIn(rows[j], lk, w)
    ensures FirstEntry(rows, lk, w) == Some((rows[i].number, RowSq(rows[i], lk)))
  {
    var pre := rows[..i + 1];
    assert pre[..i] == rows[..i] && pre[i] == rows[i];
    assert FirstEntry(rows[..i], lk, w) == None by {
      forall j | 0 <= j < i ensures !RowIn(rows[..i][j], lk, w) {
        assert rows[..i][j] == rows[j];
      }
      FirstEntryNone(rows[..i], lk, w);
    }
    assert FirstEntry(pre, lk, w) == Some((rows[i].number, RowSq(rows[i], lk)));
    FirstEntryKept(rows, lk, w, i + 1);
  }

  /** Once some prefix has an entry, the whole has the same one. */
  lemma {:induction false} FirstEntryKept(rows: seq<VoteRow>, lk: LookupTables, w: Where, k: int)
    requires 0 <= k <= |rows| && FirstEntry(rows[..k], lk, w).Some?
    ensures FirstEntry(rows, lk, w) == FirstEntry(rows[..k], lk, w)
  {
    if k < |rows| {
      var init := rows[..|rows| - 1];
      assert init[..k] == rows[..k];
      FirstEntryKept(init, lk, w, k);
    } else {
      assert rows[..k] == rows;
    }
  }

  /** Ranking neither adds nor removes a scope or an entry. In a consistent summary, where names
      are unique in each list, it keeps every entry's `numero` and `sq_candidato`. */
  lemma {:induction false} RankedContents(s: Summary, w: Where)
    ensures Present(RankedSummary(s), w) <==> Present(s, w)
    ensures SummaryOk(s) ==> EntryOf(RankedSummary(s), w) == EntryOf(s, w)
  {
    if w.office in s && !w.InOffice? && w.city in s[w.office].cities {
      var c := s[w.office].cities[w.city];
      assert RankedSummary(s)[w.office].cities[w.city] == RankedCity(c);
      match w
      case Attributed(_, _) =>
        assert RankedCity(c).neighbourhoods.Keys == c.neighbourhoods.Keys;
      case CandidateInCity(_, _, n) =>
        RankedNames(c.candidates, n);
        if SummaryOk(s) {
          assert CityOk(c);
          RankedIdentity(c.candidates, n);
        }
      case CandidateInNeighbourhood(_, _, b, n) =>
        if b in c.neighbourhoods {
          RankedNames(c.neighbourhoods[b].candidates, n);
          if SummaryOk(s) {
            assert CityOk(c);
            RankedIdentity(c.neighbourhoods[b].candidates, n);
          }
        }
      case _ =>
    }
  }

  /** The ranked summary of a year has the scopes and entries of exactly the rows collected into
      them. Each entry carries the `numero` and `sq` of its first row. */
  lemma {:induction false} YearContents(rows: seq<VoteRow>, lk: LookupTables, w: Where)
    ensures Present(RankedSummary(Ingest(rows, lk)), w) <==> Occurs(rows, lk, w)
    ensures EntryOf(RankedSummary(Ingest(rows, lk)), w) == FirstEntry(rows, lk, w)
  {
    IngestOk(rows, lk);
    IngestPresent(rows, lk, w);
    IngestEntries(rows, lk, w);
    RankedContents(Ingest(rows, lk), w);
  }
}
