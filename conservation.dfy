/** What the row loop of `processar_ano` keeps true (processar_com_bairro.py:131-144): every total is
    the sum of the votes in its candidate list, every `TOTAL_RJ` is the sum of its cities' totals, names
    are unique within a list, no entry is ranked yet; and each total is the sum of the votes of the rows
    that belong to it. */
module Conservation {
  import opened Wrappers
  import opened Records
  import opened Candidates
  import opened MapSum
  import opened Aggregation
  import opened Text

  function CityTotals(cities: map<string, City>): map<string, int> {
    map c | c in cities :: cities[c].total
  }

  function ScopeTotals(m: map<string, Scope>): map<string, int> {
    map b | b in m :: m[b].total
  }

  /** A total and its candidate list agree, and the list's names are unique. */
  ghost predicate ListOk(total: int, l: seq<Candidate>) {
    total == SumVotes(l) && UniqueNames(l)
  }

  ghost predicate CityOk(c: City) {
    && ListOk(c.total, c.candidates)
    && forall b :: b in c.neighbourhoods ==> ListOk(c.neighbourhoods[b].total, c.neighbourhoods[b].candidates)
  }

  ghost predicate OfficeOk(o: Office) {
    && o.stateTotal == Sum(CityTotals(o.cities))
    && forall c :: c in o.cities ==> CityOk(o.cities[c])
  }

  /** The consistency of the whole summary. */
  ghost predicate SummaryOk(s: Summary) {
    forall o :: o in s ==> OfficeOk(s[o])
  }

  ghost predicate NoneRanked(l: seq<Candidate>) {
    forall i :: 0 <= i < |l| ==> l[i].position == 0
  }

  ghost predicate CityUnranked(c: City) {
    && NoneRanked(c.candidates)
    && forall b :: b in c.neighbourhoods ==> NoneRanked(c.neighbourhoods[b].candidates)
  }

  /** No entry anywhere has been given a position yet. */
  ghost predicate SummaryUnranked(s: Summary) {
    forall o, c :: o in s && c in s[o].cities ==> CityUnranked(s[o].cities[c])
  }

  lemma {:induction false} AddToListOk(total: int, l: seq<Candidate>, v: Vote)
    requires ListOk(total, l)
    ensures ListOk(total + v.votes, Inserted(l, v.name, v.number, v.votes, v.sq))
    ensures NoneRanked(l) ==> NoneRanked(Inserted(l, v.name, v.number, v.votes, v.sq))
  {
    InsertedSum(l, v.name, v.number, v.votes, v.sq);
    InsertedUnique(l, v.name, v.number, v.votes, v.sq);
  }

  lemma {:induction false} AddToCityOk(c: City, v: Vote)
    requires CityOk(c)
    ensures CityOk(AddToCity(c, v))
    ensures CityUnranked(c) ==> CityUnranked(AddToCity(c, v))
  {
    AddToListOk(c.total, c.candidates, v);
    if v.neighbourhood.Some? {
      var b := v.neighbourhood.value;
      var sc := if b in c.neighbourhoods then c.neighbourhoods[b] else EmptyScope;
      AddToListOk(sc.total, sc.candidates, v);
    }
  }

  lemma {:induction false} AddToOfficeOk(o: Office, v: Vote)
    requires OfficeOk(o)
    ensures OfficeOk(AddToOffice(o, v))
    ensures (forall n :: n in o.cities ==> CityUnranked(o.cities[n]))
            ==> forall n :: n in AddToOffice(o, v).cities ==> CityUnranked(AddToOffice(o, v).cities[n])
  {
    var c := if v.city in o.cities then o.cities[v.city] else EmptyCity;
    var c2 := AddToCity(c, v);
    var o2 := AddToOffice(o, v);
    AddToCityOk(c, v);
    assert CityTotals(o2.cities) == CityTotals(o.cities)[v.city := c2.total];
    SumUpdate(CityTotals(o.cities), v.city, c2.total);
  }

  /** One vote keeps the summary consistent; in particular `TOTAL_RJ` stays the sum of the city totals. */
  lemma {:induction false} AddVoteOk(s: Summary, v: Vote)
    requires SummaryOk(s)
    ensures SummaryOk(AddVote(s, v))
    ensures SummaryUnranked(s) ==> SummaryUnranked(AddVote(s, v))
  {
    var o := if v.office in s then s[v.office] else EmptyOffice;
    AddToOfficeOk(o, v);
    var s2 := AddVote(s, v);
    forall k | k in s2 ensures OfficeOk(s2[k]) {
      if k != v.office {
        assert s2[k] == s[k];
      }
    }
    if SummaryUnranked(s) {
      forall k, n | k in s2 && n in s2[k].cities ensures CityUnranked(s2[k].cities[n]) {
        if k != v.office {
          assert s2[k] == s[k];
        }
      }
    }
  }

  /** The loop keeps the summary consistent and unranked from the empty summary on. */
  lemma {:induction false} IngestOk(rows: seq<VoteRow>, lk: LookupTables)
    ensures SummaryOk(Ingest(rows, lk)) && SummaryUnranked(Ingest(rows, lk))
  {
    if rows != [] {
      var s := Ingest(rows[..|rows| - 1], lk);
      IngestOk(rows[..|rows| - 1], lk);
      match Resolve(rows[|rows| - 1], lk)
      case None =>
      case Some(v) => AddVoteOk(s, v);
    }
  }

  /** Which rows a total collects. */
  datatype Where =
    | InOffice(office: string)
    | InCity(office: string, city: string)
    | InNeighbourhood(office: string, city: string, neighbourhood: string)
    | Attributed(office: string, city: string)   // the city's rows that resolved a neighbourhood
    | CandidateInCity(office: string, city: string, name: string)
    | CandidateInNeighbourhood(office: string, city: string, neighbourhood: string, name: string)

  /** The totals kept per candidate entry rather than per scope. */
  predicate PerCandidate(w: Where) {
    w.CandidateInCity? || w.CandidateInNeighbourhood?
  }

  /** The zone, polling place, section and vote count all parse, so the loop does not skip the row
      (lines 110-118). */
  predicate Parses(row: VoteRow) {
    row.zone.Some? && row.section.Some? && row.place.Some? && row.votes.Some?
  }

  /** The neighbourhood table maps the row's (zone, polling place, section) to `b` (lines 120-121). */
  predicate SectionNamed(row: VoteRow, lk: LookupTables, b: string) {
    && row.zone.Some? && row.section.Some? && row.place.Some?
    && GeoKey(row.zone.value, row.place.value, row.section.value) in lk.neighbourhoods
    && lk.neighbourhoods[GeoKey(row.zone.value, row.place.value, row.section.value)] == b
  }

  /** The neighbourhood table maps the row's section to something other than `""`. */
  predicate SectionAttributed(row: VoteRow, lk: LookupTables) {
    && row.zone.Some? && row.section.Some? && row.place.Some?
    && GeoKey(row.zone.value, row.place.value, row.section.value) in lk.neighbourhoods
    && lk.neighbourhoods[GeoKey(row.zone.value, row.place.value, row.section.value)] != ""
  }

  /** Whether `w` collects the row, read off the row's own cells and the neighbourhood table. */
  predicate RowIn(row: VoteRow, lk: LookupTables, w: Where) {
    && Parses(row)
    && Normalize(row.office) == w.office
    && match w
       case InOffice(_) => true
       case InCity(_, c) => Normalize(row.city) == c
       case InNeighbourhood(_, c, b) => Normalize(row.city) == c && b != "" && SectionNamed(row, lk, b)
       case Attributed(_, c) => Normalize(row.city) == c && SectionAttributed(row, lk)
       case CandidateInCity(_, c, n) => Normalize(row.city) == c && Normalize(row.name) == n
       case CandidateInNeighbourhood(_, c, b, n) =>
         Normalize(row.city) == c && Normalize(row.name) == n && b != "" && SectionNamed(row, lk, b)
  }

  /** Whether `w` collects a resolved vote. */
  predicate Matches(v: Vote, w: Where) {
    match w
    case InOffice(o) => v.office == o
    case InCity(o, c) => v.office == o && v.city == c
    case InNeighbourhood(o, c, b) => v.office == o && v.city == c && v.neighbourhood == Some(b)
    case Attributed(o, c) => v.office == o && v.city == c && v.neighbourhood.Some?
    case CandidateInCity(o, c, n) => v.office == o && v.city == c && v.name == n
    case CandidateInNeighbourhood(o, c, b, n) =>
      v.office == o && v.city == c && v.neighbourhood == Some(b) && v.name == n
  }

  /** The loop body collects into `w` exactly the rows `w` names, with their own vote count. */
  lemma {:induction false} ResolveCollects(row: VoteRow, lk: LookupTables, w: Where)
    ensures RowIn(row, lk, w) <==> Resolve(row, lk).Some? && Matches(Resolve(row, lk).value, w)
    ensures RowIn(row, lk, w) ==> Resolve(row, lk).value.votes == row.votes.value
  {
    if Parses(row) {
      var v := Resolve(row, lk).value;
      assert v.office == Normalize(row.office) && v.city == Normalize(row.city) && v.name == Normalize(row.name);
      assert v.neighbourhood.Some? <==> SectionAttributed(row, lk);
      if v.neighbourhood.Some? {
        assert SectionNamed(row, lk, v.neighbourhood.value);
      }
    }
  }

  /** The votes of the rows that `w` collects. */
  function VotesWhere(rows: seq<VoteRow>, lk: LookupTables, w: Where): int {
    if rows == [] then 0
    else
      var last := rows[|rows| - 1];
      VotesWhere(rows[..|rows| - 1], lk, w) + if RowIn(last, lk, w) then last.votes.value else 0
  }

  function OfficeTotal(s: Summary, o: string): int {
    if o in s then s[o].stateTotal else 0
  }

  function CityTotal(s: Summary, o: string, c: string): int {
    if o in s && c in s[o].cities then s[o].cities[c].total else 0
  }

  function NeighbourhoodTotal(s: Summary, o: string, c: string, b: string): int {
    if o in s && c in s[o].cities && b in s[o].cities[c].neighbourhoods
    then s[o].cities[c].neighbourhoods[b].total else 0
  }

  /** The sum of the neighbourhood totals of a city. */
  ghost function AttributedTotal(s: Summary, o: string, c: string): int {
    if o in s && c in s[o].cities then Sum(ScopeTotals(s[o].cities[c].neighbourhoods)) else 0
  }

  /** The `votos` of the entry named `n` in a city's list. */
  function CityCandidateTotal(s: Summary, o: string, c: string, n: string): int {
    if o in s && c in s[o].cities then CandidateVotes(s[o].cities[c].candidates, n) else 0
  }

  /** The `votos` of the entry named `n` in a neighbourhood's list. */
  function NeighbourhoodCandidateTotal(s: Summary, o: string, c: string, b: string, n: string): int {
    if o in s && c in s[o].cities && b in s[o].cities[c].neighbourhoods
    then CandidateVotes(s[o].cities[c].neighbourhoods[b].candidates, n) else 0
  }

  /** The total that `w` names in the summary. */
  ghost function TotalOf(s: Summary, w: Where): int {
    match w
    case InOffice(o) => OfficeTotal(s, o)
    case InCity(o, c) => CityTotal(s, o, c)
    case InNeighbourhood(o, c, b) => NeighbourhoodTotal(s, o, c, b)
    case Attributed(o, c) => AttributedTotal(s, o, c)
    case CandidateInCity(o, c, n) => CityCandidateTotal(s, o, c, n)
    case CandidateInNeighbourhood(o, c, b, n) => NeighbourhoodCandidateTotal(s, o, c, b, n)
  }

  /** A vote with a neighbourhood adds its count to the sum of its city's neighbourhood totals. */
  lemma {:induction false} AttributedTotalStep(c: City, v: Vote)
    requires v.neighbourhood.Some?
    ensures Sum(ScopeTotals(AddToNeighbourhoods(c.neighbourhoods, v))) == Sum(ScopeTotals(c.neighbourhoods)) + v.votes
  {
    var b := v.neighbourhood.value;
    var sc := if b in c.neighbourhoods then c.neighbourhoods[b] else EmptyScope;
    var m := AddToNeighbourhoods(c.neighbourhoods, v);
    assert ScopeTotals(m) == ScopeTotals(c.neighbourhoods)[b := sc.total + v.votes];
    SumUpdate(ScopeTotals(c.neighbourhoods), b, sc.total + v.votes);
  }

  /** One vote adds its count to exactly the totals it belongs to. */
  lemma {:induction false} AddVoteTotals(s: Summary, v: Vote, w: Where)
    ensures TotalOf(AddVote(s, v), w) == TotalOf(s, w) + (if Matches(v, w) then v.votes else 0)
  {
    if w.office == v.office && !w.InOffice? && w.city == v.city {
      var o := if v.office in s then s[v.office] else EmptyOffice;
      var c := if v.city in o.cities then o.cities[v.city] else EmptyCity;
      match w
      case Attributed(_, _) =>
        if v.neighbourhood.Some? {
          AttributedTotalStep(c, v);
        }
      case CandidateInCity(_, _, n) =>
        InsertedVotes(c.candidates, v.name, v.number, v.votes, v.sq, n);
      case CandidateInNeighbourhood(_, _, b, n) =>
        if v.neighbourhood == Some(b) {
          var sc := if b in c.neighbourhoods then c.neighbourhoods[b] else EmptyScope;
          InsertedVotes(sc.candidates, v.name, v.number, v.votes, v.sq, n);
        }
      case _ =>
    }
  }

  /** Every total of the summary is the sum of the votes of the rows it collects: `TOTAL_RJ` those of
      the office, `total_validos` of a city those of the office and city, of a neighbourhood those whose
      section the table maps to it, the neighbourhoods of a city together those of its rows whose
      section the table maps to a non-empty name, and the `votos` of a candidate's entry those of the
      rows carrying that candidate. */
  lemma {:induction false} IngestTotals(rows: seq<VoteRow>, lk: LookupTables, w: Where)
    ensures TotalOf(Ingest(rows, lk), w) == VotesWhere(rows, lk, w)
  {
    if rows != [] {
      var last := rows[|rows| - 1];
      IngestTotals(rows[..|rows| - 1], lk, w);
      ResolveCollects(last, lk, w);
      match Resolve(last, lk)
      case None =>
      case Some(v) => AddVoteTotals(Ingest(rows[..|rows| - 1], lk), v, w);
    }
  }

  /** Every vote count that parsed is non-negative. */
  ghost predicate NonNegativeVotes(rows: seq<VoteRow>) {
    forall i :: 0 <= i < |rows| && rows[i].votes.Some? ==> rows[i].votes.value >= 0
  }

  /** A city's rows that resolved a neighbourhood are among its rows; with non-negative counts they
      carry at most its votes. */
  lemma {:induction false} AttributedVotesAtMost(rows: seq<VoteRow>, lk: LookupTables, o: string, c: string)
    requires NonNegativeVotes(rows)
    ensures VotesWhere(rows, lk, Attributed(o, c)) <= VotesWhere(rows, lk, InCity(o, c))
  {
    if rows != [] {
      AttributedVotesAtMost(rows[..|rows| - 1], lk, o, c);
    }
  }

  /** When the table maps the section of every row of the city to a non-empty neighbourhood, the
      neighbourhoods carry all of the city's votes. */
  lemma {:induction false} AttributedVotesAll(rows: seq<VoteRow>, lk: LookupTables, o: string, c: string)
    requires forall i :: 0 <= i < |rows| && RowIn(rows[i], lk, InCity(o, c)) ==> SectionAttributed(rows[i], lk)
    ensures VotesWhere(rows, lk, Attributed(o, c)) == VotesWhere(rows, lk, InCity(o, c))
  {
    if rows != [] {
      AttributedVotesAll(rows[..|rows| - 1], lk, o, c);
    }
  }
}
