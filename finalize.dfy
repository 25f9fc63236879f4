/** `ordenar_posicoes` (processar_com_bairro.py:179-194): after the row loop every city list and every
    neighbourhood list is ranked independently; totals and the nesting are left alone. */
module Finalize {
  import opened Records
  import opened Candidates
  import opened Ranking
  import opened MapSum
  import opened Conservation

  function RankedScope(sc: Scope): Scope {
    Scope(sc.total, Ranked(sc.candidates))
  }

  function RankedNeighbourhoods(m: map<string, Scope>): map<string, Scope> {
    map b | b in m :: RankedScope(m[b])
  }

  function RankedCity(c: City): City {
    City(c.total, Ranked(c.candidates), RankedNeighbourhoods(c.neighbourhoods))
  }

  function RankedCities(m: map<string, City>): map<string, City> {
    map c | c in m :: RankedCity(m[c])
  }

  /** The summary as `ordenar_posicoes` leaves it. */
  function RankedSummary(s: Summary): Summary {
    map o | o in s :: Office(s[o].stateTotal, RankedCities(s[o].cities))
  }

  ghost predicate CityRanked(c: City) {
    && IsRanked(c.candidates)
    && forall b :: b in c.neighbourhoods ==> IsRanked(c.neighbourhoods[b].candidates)
  }

  /** Every list of the summary is sorted by votes, descending, with positions 1..N. */
  ghost predicate SummaryRanked(s: Summary) {
    forall o, c :: o in s && c in s[o].cities ==> CityRanked(s[o].cities[c])
  }

  /** One city of `ordenar_posicoes`: its own list (lines 185-188), then each of its neighbourhoods
      (lines 190-194), in whatever order the dictionary yields them. */
  method RankCity(c: City) returns (r: City)
    ensures r == RankedCity(c)
  {
    var lista := RankList(c.candidates);
    var bairros := c.neighbourhoods;
    var pendentes := bairros.Keys;
    while pendentes != {}
      invariant pendentes <= bairros.Keys == c.neighbourhoods.Keys
      invariant forall b :: b in bairros ==>
                  bairros[b] == if b in pendentes then c.neighbourhoods[b] else RankedScope(c.neighbourhoods[b])
      decreases pendentes
    {
      var b :| b in pendentes;
      var listaBairro := RankList(bairros[b].candidates);
      bairros := bairros[b := Scope(bairros[b].total, listaBairro)];
      pendentes := pendentes - {b};
    }
    assert bairros == RankedNeighbourhoods(c.neighbourhoods);
    r := City(c.total, lista, bairros);
  }

  /** The cities of one office (line 183). */
  method RankCities(cities: map<string, City>) returns (r: map<string, City>)
    ensures r == RankedCities(cities)
  {
    r := cities;
    var pendentes := r.Keys;
    while pendentes != {}
      invariant pendentes <= r.Keys == cities.Keys
      invariant forall c :: c in r ==> r[c] == if c in pendentes then cities[c] else RankedCity(cities[c])
      decreases pendentes
    {
      var c :| c in pendentes;
      var cidade := RankCity(r[c]);
      r := r[c := cidade];
      pendentes := pendentes - {c};
    }
    assert r == RankedCities(cities);
  }

  /** `ordenar_posicoes`: every office (line 181). */
  method OrderPositions(resumo: Summary) returns (r: Summary)
    ensures r == RankedSummary(resumo)
    ensures SummaryRanked(r)
    ensures SummaryOk(resumo) ==> SummaryOk(r)
    ensures forall w :: !PerCandidate(w) || SummaryOk(resumo) ==> TotalOf(r, w) == TotalOf(resumo, w)
  {
    r := resumo;
    var pendentes := r.Keys;
    while pendentes != {}
      invariant pendentes <= r.Keys == resumo.Keys
      invariant forall o :: o in r ==>
                  r[o] == if o in pendentes then resumo[o] else Office(resumo[o].stateTotal, RankedCities(resumo[o].cities))
      decreases pendentes
    {
      var o :| o in pendentes;
      var cidades := RankCities(r[o].cities);
      r := r[o := Office(r[o].stateTotal, cidades)];
      pendentes := pendentes - {o};
    }
    assert r == RankedSummary(resumo);
    RankedSummaryRanked(resumo);
    if SummaryOk(resumo) {
      RankedSummaryOk(resumo);
    }
    forall w | !PerCandidate(w) || SummaryOk(resumo) ensures TotalOf(r, w) == TotalOf(resumo, w) {
      RankedSummaryTotals(resumo, w);
    }
  }

  lemma {:induction false} RankedListOk(total: int, l: seq<Candidate>)
    ensures IsRanked(Ranked(l))
    ensures ListOk(total, l) ==> ListOk(total, Ranked(l))
    ensures NoneRanked(l) ==> multiset(Unpositioned(Ranked(l))) == multiset(l)
  {
    RankedProperties(l);
    if NoneRanked(l) {
      RankedIsPermutation(l);
    }
  }

  lemma {:induction false} RankedCityProperties(c: City)
    ensures CityRanked(RankedCity(c))
    ensures CityOk(c) ==> CityOk(RankedCity(c))
    ensures ScopeTotals(RankedCity(c).neighbourhoods) == ScopeTotals(c.neighbourhoods)
  {
    RankedListOk(c.total, c.candidates);
    forall b | b in c.neighbourhoods
      ensures IsRanked(Ranked(c.neighbourhoods[b].candidates))
      ensures ListOk(c.neighbourhoods[b].total, c.neighbourhoods[b].candidates)
              ==> ListOk(c.neighbourhoods[b].total, Ranked(c.neighbourhoods[b].candidates))
    {
      RankedListOk(c.neighbourhoods[b].total, c.neighbourhoods[b].candidates);
    }
  }

  /** Ranking makes every list of the summary ranked. */
  lemma {:induction false} RankedSummaryRanked(s: Summary)
    ensures SummaryRanked(RankedSummary(s))
  {
    forall o, c | o in s && c in s[o].cities
      ensures CityRanked(RankedSummary(s)[o].cities[c])
    {
      RankedCityProperties(s[o].cities[c]);
    }
  }

  /** Ranking keeps the summary consistent: sums and unique names survive the reordering. */
  lemma {:induction false} RankedSummaryOk(s: Summary)
    requires SummaryOk(s)
    ensures SummaryOk(RankedSummary(s))
  {
    var r := RankedSummary(s);
    forall o | o in s
      ensures OfficeOk(r[o])
    {
      assert CityTotals(r[o].cities) == CityTotals(s[o].cities);
      forall c | c in s[o].cities
        ensures CityOk(r[o].cities[c])
      {
        RankedCityProperties(s[o].cities[c]);
      }
    }
  }

  /** Ranking changes no total, neither stored nor summed over neighbourhoods; in a consistent summary,
      where names are unique within each list, it changes no candidate's `votos` either. */
  lemma {:induction false} RankedSummaryTotals(s: Summary, w: Where)
    ensures !PerCandidate(w) || SummaryOk(s) ==> TotalOf(RankedSummary(s), w) == TotalOf(s, w)
  {
    if w.office in s && !w.InOffice? && w.city in s[w.office].cities {
      var c := s[w.office].cities[w.city];
      match w
      case Attributed(_, _) =>
        RankedCityProperties(c);
      case CandidateInCity(_, _, n) =>
        if SummaryOk(s) {
          assert CityOk(c);
          RankedVotes(c.candidates, n);
        }
      case CandidateInNeighbourhood(_, _, b, n) =>
        if SummaryOk(s) && b in c.neighbourhoods {
          assert CityOk(c);
          RankedVotes(c.neighbourhoods[b].candidates, n);
        }
      case _ =>
    }
  }

  /** `ranked` is `l` ranked: apart from `posicao` a permutation of `l` in which the entries with equal
      votes keep their order in `l`. */
  ghost predicate RankedFrom(ranked: seq<Candidate>, l: seq<Candidate>) {
    && multiset(Unpositioned(ranked)) == multiset(l)
    && forall v :: WithVotes(Unpositioned(ranked), v) == WithVotes(l, v)
  }

  lemma {:induction false} RankedListFrom(l: seq<Candidate>)
    requires NoneRanked(l)
    ensures RankedFrom(Ranked(l), l)
  {
    RankedIsPermutation(l);
    forall v ensures WithVotes(Unpositioned(Ranked(l)), v) == WithVotes(l, v) {
      SortByVotesStable(l, v);
    }
  }

  /** Every unranked list of a city, its own and each neighbourhood's, is ranked into a stable
      permutation of itself. */
  lemma {:induction false} RankedSummaryPermutation(s: Summary, o: string, c: string)
    requires SummaryUnranked(s) && o in s && c in s[o].cities
    ensures RankedFrom(RankedSummary(s)[o].cities[c].candidates, s[o].cities[c].candidates)
    ensures forall b :: b in s[o].cities[c].neighbourhoods ==>
              RankedFrom(RankedSummary(s)[o].cities[c].neighbourhoods[b].candidates,
                         s[o].cities[c].neighbourhoods[b].candidates)
  {
    var city := s[o].cities[c];
    RankedListFrom(city.candidates);
    forall b | b in city.neighbourhoods
      ensures RankedFrom(RankedSummary(s)[o].cities[c].neighbourhoods[b].candidates, city.neighbourhoods[b].candidates)
    {
      RankedListFrom(city.neighbourhoods[b].candidates);
    }
  }
}
