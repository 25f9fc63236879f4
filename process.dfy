/** `processar_ano` (processar_com_bairro.py:81-152) without its file handling and output: load the
    roster for the years that need one, run the row loop, then rank every list. */
module Process {
  import opened Wrappers
  import opened Records
  import opened Lookups
  import opened Aggregation
  import opened Conservation
  import opened Finalize
  import opened Contents

  /** The tables one year's row loop reads. */
  function YearLookups(year: string, neighbourhoods: map<GeoKey, string>,
                       rosterFile: Option<seq<RosterRow>>, sqColumn: bool): LookupTables {
    LookupTables(neighbourhoods, RosterForYear(year, rosterFile), sqColumn)
  }

  /** The row loop of `processar_ano` (lines 107-147), from the empty summary on. */
  method IngestRows(rows: seq<VoteRow>, lk: LookupTables) returns (resumo: Summary)
    ensures resumo == Ingest(rows, lk)
    ensures SummaryOk(resumo) && SummaryUnranked(resumo)
  {
    resumo := map[];
    for i := 0 to |rows|
      invariant resumo == Ingest(rows[..i], lk)
    {
      assert rows[..i + 1][..i] == rows[..i];
      resumo := AddRow(resumo, rows[i], lk);
    }
    assert rows[..|rows|] == rows;
    IngestOk(rows, lk);
  }

  /** What one year's summary satisfies: consistent and ranked, every total the sum of the rows it
      collects, and with non-negative counts no city's neighbourhoods holding more votes than the city. */
  lemma {:induction false} YearSummary(rows: seq<VoteRow>, lk: LookupTables)
    ensures SummaryOk(RankedSummary(Ingest(rows, lk))) && SummaryRanked(RankedSummary(Ingest(rows, lk)))
    ensures forall w :: TotalOf(RankedSummary(Ingest(rows, lk)), w) == VotesWhere(rows, lk, w)
    ensures NonNegativeVotes(rows) ==>
              forall o, c :: AttributedTotal(RankedSummary(Ingest(rows, lk)), o, c)
                             <= CityTotal(RankedSummary(Ingest(rows, lk)), o, c)
  {
    var s := Ingest(rows, lk);
    var r := RankedSummary(s);
    IngestOk(rows, lk);
    RankedSummaryOk(s);
    RankedSummaryRanked(s);
    forall w ensures TotalOf(r, w) == VotesWhere(rows, lk, w) {
      YearTotal(rows, lk, w);
    }
    if NonNegativeVotes(rows) {
      forall o, c ensures AttributedTotal(r, o, c) <= CityTotal(r, o, c) {
        YearAttributedAtMost(rows, lk, o, c);
      }
    }
  }

  /** With non-negative counts, a city's neighbourhoods hold no more votes than the city. */
  lemma {:induction false} YearAttributedAtMost(rows: seq<VoteRow>, lk: LookupTables, o: string, c: string)
    requires NonNegativeVotes(rows)
    ensures AttributedTotal(RankedSummary(Ingest(rows, lk)), o, c) <= CityTotal(RankedSummary(Ingest(rows, lk)), o, c)
  {
    YearTotal(rows, lk, Attributed(o, c));
    YearTotal(rows, lk, InCity(o, c));
    AttributedVotesAtMost(rows, lk, o, c);
  }

  /** One total of the ranked summary is the sum of the rows it collects. */
  lemma {:induction false} YearTotal(rows: seq<VoteRow>, lk: LookupTables, w: Where)
    ensures TotalOf(RankedSummary(Ingest(rows, lk)), w) == VotesWhere(rows, lk, w)
  {
    IngestOk(rows, lk);
    IngestTotals(rows, lk, w);
    RankedSummaryTotals(Ingest(rows, lk), w);
  }

  /** One year: `neighbourhoods` is the table `carregar_bairros` built once for all years, `rosterFile`
      the year's roster file if it exists, `sqColumn` whether the vote file has an SQ_CANDIDATO column. */
  method ProcessYear(year: string, rows: seq<VoteRow>, sqColumn: bool,
                     neighbourhoods: map<GeoKey, string>, rosterFile: Option<seq<RosterRow>>)
    returns (resumo: Summary)
    ensures resumo == RankedSummary(Ingest(rows, YearLookups(year, neighbourhoods, rosterFile, sqColumn)))
    ensures SummaryOk(resumo) && SummaryRanked(resumo)
    ensures forall w :: TotalOf(resumo, w) == VotesWhere(rows, YearLookups(year, neighbourhoods, rosterFile, sqColumn), w)
    ensures NonNegativeVotes(rows) ==> forall o, c :: AttributedTotal(resumo, o, c) <= CityTotal(resumo, o, c)
    ensures forall w :: Present(resumo, w) <==> Occurs(rows, YearLookups(year, neighbourhoods, rosterFile, sqColumn), w)
    ensures forall w :: EntryOf(resumo, w) == FirstEntry(rows, YearLookups(year, neighbourhoods, rosterFile, sqColumn), w)
  {
    var candidatos: map<RosterKey, Option<string>> := map[];
    if year == "2010" || year == "2014" {
      candidatos := LoadCandidates(rosterFile);
    }
    var lk := LookupTables(neighbourhoods, candidatos, sqColumn);
    assert lk == YearLookups(year, neighbourhoods, rosterFile, sqColumn);
    resumo := IngestRows(rows, lk);
    resumo := OrderPositions(resumo);
    YearSummary(rows, lk);
    forall w
      ensures Present(resumo, w) <==> Occurs(rows, lk, w)
      ensures EntryOf(resumo, w) == FirstEntry(rows, lk, w)
    {
      YearContents(rows, lk, w);
    }
  }
}
