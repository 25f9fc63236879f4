# Vote aggregation by office, city and neighbourhood

This project is a Dafny model of the aggregation engine of `processar_com_bairro.py`. The engine reads
the per-section vote rows of one election year. It adds up the votes by office (`cargo`), then by city
(`municipio`), then by neighbourhood (`bairro`), and keeps one candidate list per city and per
neighbourhood. Each list is merged by normalised candidate name. When the rows are read, every list is
stable-sorted by votes, descending, and numbered 1..N.

The model has these parts:

- **Text** (`text.dfy`): `normalizar`, which is Python's `str.strip()` followed by `str.upper()`.
- **Tables** and **Lookups** (`tables.dfy`, `lookups.dfy`): the lookup builders.
  - `carregar_bairros` maps (zone, polling place, section) to a neighbourhood.
  - `carregar_candidatos` maps (office, ballot number) to a candidate sequence id.
  - Each is a loop over already-split rows, and the last row with a given key wins. `carregar_bairros` skips a row whose `int()` fails; `carregar_candidatos` skips no row. Both loops are written as methods and proved equal to a fold, `Tables.Table`.
- **Candidates** (`candidates.dfy`): `inserir_candidato`, a scan loop proved against the function `Inserted`.
- **Ranking** (`ranking.dfy`): one list of `ordenar_posicoes` — the stable sort by votes, then the `enumerate(start=1)` loop.
- **Aggregation**, **Conservation** and **Process** (`aggregation.dfy`, `conservation.dfy`, `process.dfy`): the row loop of `processar_ano` and what it keeps true.
- **Finalize** (`finalize.dfy`): `ordenar_posicoes` over the whole summary.
- **Contents** (`contents.dfy`): what the summary holds besides totals. It has the offices, cities, neighbourhoods and candidate entries of exactly the rows read, and each entry keeps the `numero` and `sq_candidato` of its first row.
- **Scenarios** (`scenarios.dfy`): the worked tie-break example.

The model's types stand in for Python's data:

- The nested `defaultdict` summary is the value type `Records.Summary`, a map from office to `Office(stateTotal, cities)`. A city is `City(total, candidates, neighbourhoods)`, and a neighbourhood is `Scope(total, candidates)`.
- A CSV cell that may be missing, or that `int()` may reject, is an `Option`.
- `Records.VoteRow` has one `Option` field per cell that the loop reads.

Three behaviours of the code matter for what the model proves:

- `carregar_bairros` stores a neighbourhood that normalises to `""` (line 37 runs for every row that parses). The row loop skips such an entry with `if bairro:` at line 141. `Lookups.LoadNeighbourhoods` keeps the empty entries, and `Aggregation.Resolve` applies the `if bairro:` test.
- `carregar_candidatos` parses nothing. Once the three columns exist in the header, no row is skipped, and a short row stores `None` cells. `Lookups.RosterKeyOf` is therefore never `None`.
- `int()` accepts negative counts such as `"-5"`. So "a city's neighbourhood totals sum to at most the city total" holds only under `Conservation.NonNegativeVotes`, a stated hypothesis. Conservation of sums holds for any counts.

Which rows a total collects is defined from each row's own cells and the neighbourhood table (`Conservation.RowIn`), independently of the loop body. `Conservation.ResolveCollects` proves that the loop body collects exactly those rows.

## Model

| member | source | states |
|---|---|---|
| Text.Normalize | processar_com_bairro.py:14-17 | `None` or `""` gives `""`; the result has no surrounding whitespace and no character that upper-casing would change |
| Text.Strip | processar_com_bairro.py:17 | the result is a slice of the input with only whitespace (the `str.isspace` set) around it, and it neither starts nor ends with whitespace |
| Text.TwoCutsSlice | processar_com_bairro.py:17 | cutting leading, then trailing whitespace leaves a slice of the input with only whitespace around it |
| Text.UpperCharIsUpper | processar_com_bairro.py:17 | a character is upper case exactly when upper-casing leaves it alone; every character upper-casing yields is upper case, and a non-space yields only non-spaces |
| Text.Upper | processar_com_bairro.py:17 | the result is at least as long as the input, and every character is a fixed point of upper-casing |
| Text.UpperAppend | processar_com_bairro.py:17 | upper-casing distributes over concatenation |
| Text.UpperOfUpper | processar_com_bairro.py:17 | upper-casing an upper-case text changes nothing |
| Text.StripOfStripped | processar_com_bairro.py:17 | stripping a text without surrounding whitespace changes nothing |
| Text.NormalizeFixed | processar_com_bairro.py:14-17 | a stripped, upper-case text is its own normal form |
| Text.NormalizeIdempotent | processar_com_bairro.py:14-17 | normalising twice equals normalising once |
| Tables.TableLastWins | processar_com_bairro.py:30-39 | the table's keys are exactly the keys of the rows that parse, and each key holds the value of the last row with that key |
| Lookups.LoadNeighbourhoods | processar_com_bairro.py:24-42 | the loop builds the fold `NeighbourhoodTable`; a key is present iff some row parses to it; its value is the normalised `Bairro` of the last such row |
| Lookups.LoadCandidates | processar_com_bairro.py:49-74 | a missing file gives the empty map; otherwise every row's `(normalised cargo, numero)` key is present, only those keys are, and each holds the last row's `SQ_CANDIDATO` |
| Lookups.RosterForYear | processar_com_bairro.py:88-90 | the roster is the loaded table for 2010 and 2014 and empty for every other year |
| Candidates.FindName | processar_com_bairro.py:161-162 | the index found is the first entry with that name; `None` means no entry has it |
| Candidates.InsertCandidate | processar_com_bairro.py:159-172 | the scan loop computes `Inserted`: on the first entry with the name only `votos` grows; with no such entry one entry is appended with the given fields and `posicao` 0 |
| Candidates.SumVotesAppend | processar_com_bairro.py:166-172 | the vote sum of a concatenation is the sum of the parts |
| Candidates.SumVotesBump | processar_com_bairro.py:163 | adding `d` to one entry's votes adds `d` to the list's sum |
| Candidates.InsertedSum | processar_com_bairro.py:159-172 | a merge grows the list's vote sum by exactly `votos` |
| Candidates.InsertedUnique | processar_com_bairro.py:159-172 | a merge keeps names unique, leaves the name in the list, and adds no other name |
| Candidates.InsertedExisting | processar_com_bairro.py:159-164 | with the name present, a merge changes only that entry's `votos`; `numero`, `sq_candidato`, `posicao`, the length and the other entries are unchanged |
| Candidates.InsertedTwice | processar_com_bairro.py:159-172 | two merges under one name equal one merge of the summed votes, and the first merge's `numero` and `sq_candidato` are kept |
| Candidates.CandidateVotes | processar_com_bairro.py:161-164 | a name absent from the list is credited 0 votes |
| Candidates.FindNameSameNames | processar_com_bairro.py:161-162 | two lists with the same names index by index stop the scan at the same entry |
| Candidates.InsertedVotes | processar_com_bairro.py:159-172 | a merge credits its votes to the merged name and leaves every other name's votes unchanged |
| Ranking.PlaceByVotes | processar_com_bairro.py:185 | inserting one entry into a list gives a list one longer with exactly one more copy of that entry |
| Ranking.SortByVotes | processar_com_bairro.py:185 | the sorted list is a permutation of its input (same length, same multiset) |
| Ranking.WithVotesAppend | processar_com_bairro.py:185 | filtering by a vote count distributes over concatenation |
| Ranking.WithVotesNone | processar_com_bairro.py:185 | a list whose counts are all below `v` has no entry with `v` votes |
| Ranking.MemberOfPlaced | processar_com_bairro.py:185 | every entry of a permutation of `t + [c]` is `c` or an entry of `t` |
| Ranking.PlaceByVotesSorted | processar_com_bairro.py:185 | inserting into a descending list keeps it descending |
| Ranking.SortByVotesSorted | processar_com_bairro.py:185 | the sorted list has non-increasing votes |
| Ranking.PlaceByVotesStable | processar_com_bairro.py:185 | an inserted entry goes behind every entry with the same count |
| Ranking.ConsStable | processar_com_bairro.py:185 | one entry put in front of two lists whose filters differ by a suffix keeps that suffix |
| Ranking.PlaceInFrontStable | processar_com_bairro.py:185 | an entry placed in front of lower counts comes after every entry with its own count |
| Ranking.SortByVotesStable | processar_com_bairro.py:185 | for every vote count, the entries with that count keep their original relative order (stable sort, ties in insertion order) |
| Ranking.SumVotesLast | processar_com_bairro.py:185 | a list's vote sum is that of all but its last entry plus the last entry's votes |
| Ranking.PlaceByVotesSum | processar_com_bairro.py:185 | inserting an entry adds its votes to the sum |
| Ranking.SortByVotesSum | processar_com_bairro.py:185 | sorting keeps the vote sum |
| Ranking.PermutationNames | processar_com_bairro.py:185 | two permutations of one another hold the same names |
| Ranking.PlaceByVotesUnique | processar_com_bairro.py:185 | inserting an entry with a new name keeps names unique |
| Ranking.SortByVotesUnique | processar_com_bairro.py:185 | sorting keeps names unique |
| Ranking.RankedProperties | processar_com_bairro.py:185-188 | the ranked list is sorted descending with `posicao` equal to the 1-based index; entry `i` is the sorted list's entry `i` with only `posicao` changed; sum and uniqueness are kept |
| Ranking.SumVotesSamePerEntry | processar_com_bairro.py:187-188 | lists with equal votes entry by entry have equal sums |
| Ranking.RankedIsPermutation | processar_com_bairro.py:185-188 | an unranked list, with `posicao` reset, ranks into exactly its stable sort, and so into a permutation of itself |
| Ranking.PermutationVotes | processar_com_bairro.py:185 | two permutations of one another, each without repeated names, credit every name the same votes |
| Ranking.RankedVotes | processar_com_bairro.py:185-188 | ranking a list without repeated names credits every name the votes it had |
| Ranking.RankList | processar_com_bairro.py:185-188 | the sort followed by the `enumerate(start=1)` loop gives `Ranked(lista)`: sorted, positions 1..N, each entry the sorted entry with its position set |
| Aggregation.Resolve | processar_com_bairro.py:109-128 | `None` exactly when one of zona, secao, local or votos fails to parse. Otherwise: the parsed votes; the `NR_VOTAVEL` cell as number; office, city and name the `normalizar` of their cells; as neighbourhood the table's entry for (zona, local, secao) when present and non-empty, else none; as `sq` the row's `SQ_CANDIDATO` when the file has that column, else the roster entry for (office, number) when present, else `None` |
| Aggregation.Accumulate | processar_com_bairro.py:130-144 | the updates of the loop body compute `AddVote`, creating office, city and neighbourhood on first use |
| Aggregation.AddRow | processar_com_bairro.py:107-147 | one loop pass is `Step`; a row that does not parse leaves the summary unchanged; no office disappears, and only the row's office changes |
| Conservation.AddToListOk | processar_com_bairro.py:135-138 | one merge keeps a total equal to its list's vote sum, keeps names unique, and keeps unranked lists unranked |
| Conservation.AddToCityOk | processar_com_bairro.py:134-144 | one vote keeps a city consistent: its totals equal their lists' sums and names stay unique |
| Conservation.AddToOfficeOk | processar_com_bairro.py:131-144 | one vote keeps an office's `TOTAL_RJ` equal to the sum of its cities' totals and keeps its cities consistent and unranked |
| Conservation.AddVoteOk | processar_com_bairro.py:131-144 | one vote keeps every `TOTAL_RJ` equal to the sum of its cities' `total_validos`, and every total equal to its list's vote sum |
| Conservation.IngestOk | processar_com_bairro.py:107-147 | after the loop, every office, city and neighbourhood is consistent and no entry is ranked yet |
| Conservation.ResolveCollects | processar_com_bairro.py:109-144 | the loop body collects a row into a total exactly when the row's own cells and the neighbourhood table place it there, and with the row's own count |
| Conservation.AddVoteTotals | processar_com_bairro.py:131-144 | one vote adds its count to exactly the totals it belongs to: its office, its city, its resolved neighbourhood, and the `votos` of its candidate's entry in the city and in the neighbourhood; every other total is unchanged |
| Conservation.AttributedTotalStep | processar_com_bairro.py:141-144 | a vote with a neighbourhood adds its count to the sum of its city's neighbourhood totals |
| Conservation.IngestTotals | processar_com_bairro.py:107-147 | after the loop, these totals equal the votes of the rows that parse and belong to them: each office, city and neighbourhood total; each city's sum of neighbourhood totals; and each candidate's `votos` in a city or neighbourhood list (the rows with that normalised name) |
| Conservation.AttributedVotesAtMost | processar_com_bairro.py:120-144 | with non-negative counts, the votes of a city's rows that resolved a neighbourhood are at most the city's votes |
| Conservation.AttributedVotesAll | processar_com_bairro.py:120-144 | when the table maps every row of a city to a non-empty neighbourhood, the neighbourhoods carry all of the city's votes |
| MapSum.SumRemove | processar_com_bairro.py:131-135 | a map's sum is any one entry plus the sum of the rest |
| MapSum.SumUpdate | processar_com_bairro.py:131-135 | writing a key replaces its contribution to the sum, or adds one for a new key |
| Finalize.RankCity | processar_com_bairro.py:183-194 | ranking one city ranks its own list and each of its neighbourhoods' lists, touching nothing else |
| Finalize.RankCities | processar_com_bairro.py:183-194 | every city of an office is ranked |
| Finalize.OrderPositions | processar_com_bairro.py:179-194 | the pass gives `RankedSummary`; every list comes out sorted with positions 1..N; consistency and every scope total are kept, and so is every candidate's `votos` when names are unique in each list |
| Finalize.RankedListOk | processar_com_bairro.py:185-188 | a ranked list is ranked and keeps total/sum agreement and unique names; an unranked list becomes a permutation of itself up to positions |
| Finalize.RankedCityProperties | processar_com_bairro.py:183-194 | a ranked city has every list ranked, stays consistent, and keeps its neighbourhood totals |
| Finalize.RankedSummaryRanked | processar_com_bairro.py:179-194 | every list of the ranked summary is sorted with positions 1..N |
| Finalize.RankedSummaryOk | processar_com_bairro.py:179-194 | ranking keeps the summary consistent |
| Finalize.RankedSummaryTotals | processar_com_bairro.py:179-194 | ranking changes no scope total; in a consistent summary it changes no candidate's `votos` either |
| Finalize.RankedListFrom | processar_com_bairro.py:185-188 | an unranked list is ranked into a permutation of itself, up to positions, in which entries with equal votes keep their order |
| Finalize.RankedSummaryPermutation | processar_com_bairro.py:183-194 | every unranked list of a city, its own and each of its neighbourhoods', is ranked into a permutation of itself, up to positions, with ties in their original order |
| Contents.AddVotePresent | processar_com_bairro.py:131-144 | one vote adds exactly the scopes and candidate entries it belongs to, creating each on first use; nothing is removed |
| Contents.AddVoteEntry | processar_com_bairro.py:131-144 | one vote keeps the `numero` and `sq_candidato` of an entry already present, and gives a new entry the vote's own |
| Contents.OccursLast | processar_com_bairro.py:107-147 | a row collected into a scope is either an earlier row or the last row |
| Contents.OccursSplit | processar_com_bairro.py:107-147 | a row collected among all rows is among the earlier rows or is the last |
| Contents.OccursExtend | processar_com_bairro.py:107-147 | a row collected among the earlier rows is among all rows |
| Contents.IngestPresent | processar_com_bairro.py:107-147 | after the loop, an office, city, neighbourhood, city's neighbourhood set or candidate entry exists exactly when some row is collected into it, whatever the row's count (`0` included) |
| Contents.IngestEntries | processar_com_bairro.py:107-147 | after the loop, each candidate entry carries the `numero` and `sq` of the first row collected into it |
| Contents.FirstEntryNone | processar_com_bairro.py:107-147 | no row collected into an entry means no entry |
| Contents.FirstEntryIsFirst | processar_com_bairro.py:159-172 | an entry's `numero` and `sq` are those of the first row, in file order, collected into it; the sq is the `SQ_CANDIDATO` cell, or the roster's entry when the file has no such column |
| Contents.FirstEntryKept | processar_com_bairro.py:159-164 | once a prefix of the rows has created an entry, later rows leave its `numero` and `sq` alone |
| Contents.RankedContents | processar_com_bairro.py:179-194 | ranking adds and removes no scope or entry, and, with unique names in each list, keeps every entry's `numero` and `sq_candidato` |
| Contents.YearContents | processar_com_bairro.py:107-194 | the ranked summary of a year has the scopes and entries of exactly the rows collected into them, each entry with the `numero` and `sq` of its first row |
| Candidates.Identity | processar_com_bairro.py:161-164 | the list has an entry for a name exactly when the name is in it |
| Candidates.InsertedIdentity | processar_com_bairro.py:159-172 | a merge keeps the `numero` and `sq_candidato` of an entry already present under the name, and gives a new entry the merged row's |
| Ranking.PermutationIdentity | processar_com_bairro.py:185 | two permutations of one another, each without repeated names, give every name the same `numero` and `sq_candidato` |
| Ranking.RankedNames | processar_com_bairro.py:185-188 | ranking keeps the set of names in a list |
| Ranking.RankedIdentity | processar_com_bairro.py:185-188 | ranking a list without repeated names keeps every name's `numero` and `sq_candidato` |
| Process.IngestRows | processar_com_bairro.py:107-147 | the row loop computes `Ingest` from the empty summary, and its result is consistent and unranked |
| Process.YearSummary | processar_com_bairro.py:107-149 | the ranked summary of a year is consistent and ranked, every total (candidate `votos` included) equals the votes of the rows it collects, and with non-negative counts a city's neighbourhood totals sum to at most its `total_validos` |
| Process.YearTotal | processar_com_bairro.py:107-149 | one total of the ranked summary equals the votes of the rows it collects |
| Process.YearAttributedAtMost | processar_com_bairro.py:107-149 | with non-negative counts, a city's neighbourhood totals sum to at most its `total_validos` in the ranked summary |
| Process.ProcessYear | processar_com_bairro.py:81-149 | one year: the roster is loaded only for 2010 and 2014; the result is the ranked `Ingest` of the rows; it is consistent and ranked; every total, candidate `votos` included, equals the votes of the rows it collects; with non-negative counts, a city's neighbourhood totals sum to at most its `total_validos`; it has the offices, cities, neighbourhoods and candidate entries of exactly the rows read, each entry with the `numero` and `sq` of its first row |
| Scenarios.ExampleMerges | processar_com_bairro.py:159-172 | rows A 100, B 150, A 50 merge into [A 150, B 150], with A still first |
| Scenarios.EqualVotesKeepOrder | processar_com_bairro.py:185-188 | two entries with equal votes are ranked 1 and 2 in their original order |
| Scenarios.MoreVotesFirst | processar_com_bairro.py:185-188 | the entry with more votes is ranked first |

## Left out

- File and CSV handling is not modelled: `open`, `csv.DictReader`, the `latin1` decoding, `os.path.exists`, `os.makedirs` and the path strings. The input is a sequence of already-split rows, and a roster file that does not exist is `None`.
- Python's `int()` parser is not modelled: a cell that `int()` accepts is `Some(n)`, one it rejects is `None`.
- A header that lacks a column the loop reads makes `row[...]` raise `KeyError` on every row, so every row is skipped. The model assumes the columns exist; the only per-file column test modelled is `"SQ_CANDIDATO" in row`, as `LookupTables.sqColumn`.
- `salvar_json` and the JSON output are left out: they are serialisation through the `json` library.
- `main`, the loop over `ANOS` and the `print` calls are left out. Only the rule that the roster is used for 2010 and 2014 is kept (`Lookups.RosterForYear`). The neighbourhood table that `main` builds once is a parameter of `Process.ProcessYear`.
- `dividir_por_cidade.py` is not part of this model: it only reshapes an already written summary file into one file per city.
- The insertion order of the dictionaries is left out: maps have no order, and the order only affects the key order of the JSON output.
- Text.Upper: only ASCII and Latin-1 characters are upper-cased, including `ß` becoming `SS`; characters of other scripts are left unchanged. The input files are decoded as Latin-1, so no other character can occur.
- In-place mutation is modelled on values. The source mutates a list through the alias `cidade_obj`, and `inserir_candidato` mutates the entry's dict; in the model each method returns the new list or summary. No candidate dict or list is shared between two scopes in the source (each merge creates a fresh dict), so no aliasing is lost.
- Ranking.SortByVotes is a stable insertion sort, not Timsort. Only the result of a stable descending sort by `votos` is modelled, and that result is unique.
