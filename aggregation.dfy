/** The row loop of `processar_ano` (processar_com_bairro.py:107-147): every vote row that parses adds
    its votes to its office's `TOTAL_RJ`, to its city's `total_validos` and candidate list and, when its
    section has a non-empty neighbourhood, to that neighbourhood's total and candidate list. */
module Aggregation {
  import opened Wrappers
  import opened Text
  import opened Records
  import opened Candidates
  import opened MapSum

  /** The three tables one year's row loop reads: `mapa_bairros`, `mapa_candidatos`, and whether the
      vote file has an SQ_CANDIDATO column (`"SQ_CANDIDATO" in row`, line 125). */
  datatype LookupTables = LookupTables(neighbourhoods: map<GeoKey, string>,
                                  roster: map<RosterKey, Option<string>>,
                                  sqColumn: bool)

  /** A row that parsed, with its neighbourhood and sequence id looked up (lines 110-128). */
  datatype Vote = Vote(office: string, city: string, neighbourhood: Option<string>, name: string,
                       number: Option<string>, votes: int, sq: Option<string>)

  /** Lines 110-128: `None` when one of the four `int()` calls raises (the `except: continue` of line
      146; nothing has been changed by then); otherwise the normalised fields, the neighbourhood when the
      section's entry exists and is non-empty (`if bairro:`), and the sequence id from the row's own
      column when the file has one, else from the roster. */
  function Resolve(row: VoteRow, lk: LookupTables): (r: Option<Vote>)
    ensures r.None? <==> row.zone.None? || row.section.None? || row.place.None? || row.votes.None?
    ensures r.Some? ==> r.value.votes == row.votes.value && r.value.number == row.number
    ensures r.Some? ==> && r.value.office == Normalize(row.office)
                        && r.value.city == Normalize(row.city)
                        && r.value.name == Normalize(row.name)
    ensures r.Some? ==>
              var key := GeoKey(row.zone.value, row.place.value, row.section.value);
              r.value.neighbourhood == if key in lk.neighbourhoods && lk.neighbourhoods[key] != ""
                                       then Some(lk.neighbourhoods[key]) else None
    ensures r.Some? ==>
              var key := RosterKey(Normalize(row.office), row.number);
              r.value.sq == if lk.sqColumn then row.sq
                            else if key in lk.roster then lk.roster[key] else None
    ensures r.Some? && r.value.neighbourhood.Some? ==> r.value.neighbourhood.value != ""
  {
    if row.zone.None? || row.section.None? || row.place.None? || row.votes.None? then None
    else
      var key := GeoKey(row.zone.value, row.place.value, row.section.value);
      var office := Normalize(row.office);
      var neighbourhood :=
        if key in lk.neighbourhoods && lk.neighbourhoods[key] != "" then Some(lk.neighbourhoods[key]) else None;
      var sq :=
        if lk.sqColumn then row.sq
        else if RosterKey(office, row.number) in lk.roster then lk.roster[RosterKey(office, row.number)]
        else None;
      Some(Vote(office, Normalize(row.city), neighbourhood, Normalize(row.name), row.number,
                row.votes.value, sq))
  }

  /** A neighbourhood (or the candidate part of a city) after one vote: lines 143-144. */
  function AddToScope(sc: Scope, v: Vote): Scope {
    Scope(sc.total + v.votes, Inserted(sc.candidates, v.name, v.number, v.votes, v.sq))
  }

  /** The neighbourhoods of a city after one vote: lines 141-144. */
  function AddToNeighbourhoods(m: map<string, Scope>, v: Vote): map<string, Scope> {
    match v.neighbourhood
    case None => m
    case Some(b) => m[b := AddToScope(if b in m then m[b] else EmptyScope, v)]
  }

  /** A city after one vote: lines 134-144. */
  function AddToCity(c: City, v: Vote): City {
    City(c.total + v.votes, Inserted(c.candidates, v.name, v.number, v.votes, v.sq),
         AddToNeighbourhoods(c.neighbourhoods, v))
  }

  /** An office after one vote: lines 131-144, creating the city on first use. */
  function AddToOffice(o: Office, v: Vote): Office {
    var c := if v.city in o.cities then o.cities[v.city] else EmptyCity;
    Office(o.stateTotal + v.votes, o.cities[v.city := AddToCity(c, v)])
  }

  /** The summary after one vote: lines 131-144, creating the office on first use. */
  function AddVote(s: Summary, v: Vote): Summary {
    s[v.office := AddToOffice(if v.office in s then s[v.office] else EmptyOffice, v)]
  }

  /** One pass of the loop body. */
  function Step(s: Summary, row: VoteRow, lk: LookupTables): Summary {
    match Resolve(row, lk)
    case None => s
    case Some(v) => AddVote(s, v)
  }

  /** `resumo` after the loop has read `rows`, starting from the empty `defaultdict`. */
  function Ingest(rows: seq<VoteRow>, lk: LookupTables): Summary {
    if rows == [] then map[] else Step(Ingest(rows[..|rows| - 1], lk), rows[|rows| - 1], lk)
  }

  /** Lines 131-144 of the loop body: the updates, each scope created on first use. */
  method Accumulate(resumo: Summary, v: Vote) returns (r: Summary)
    ensures r == AddVote(resumo, v)
  {
    var cargoObj := if v.office in resumo then resumo[v.office] else EmptyOffice;
    var cidadeObj := if v.city in cargoObj.cities then cargoObj.cities[v.city] else EmptyCity;
    var lista := InsertCandidate(cidadeObj.candidates, v.name, v.number, v.votes, v.sq);
    var bairros := cidadeObj.neighbourhoods;
    if v.neighbourhood.Some? {
      var b := v.neighbourhood.value;
      var bairroObj := if b in bairros then bairros[b] else EmptyScope;
      var listaBairro := InsertCandidate(bairroObj.candidates, v.name, v.number, v.votes, v.sq);
      bairros := bairros[b := Scope(bairroObj.total + v.votes, listaBairro)];
    }
    var novaCidade := City(cidadeObj.total + v.votes, lista, bairros);
    r := resumo[v.office := Office(cargoObj.stateTotal + v.votes, cargoObj.cities[v.city := novaCidade])];
  }

  /** The loop body of `processar_ano`: a row that does not parse changes nothing; otherwise only its
      office's entry changes. */
  method AddRow(resumo: Summary, row: VoteRow, lk: LookupTables) returns (r: Summary)
    ensures r == Step(resumo, row, lk)
    ensures row.zone.None? || row.section.None? || row.place.None? || row.votes.None? ==> r == resumo
    ensures forall o :: o in resumo ==> o in r
    ensures forall o :: o in r && o != Normalize(row.office) ==> o in resumo && r[o] == resumo[o]
  {
    var v := Resolve(row, lk);
    match v
    case None =>
      r := resumo;
    case Some(vote) =>
      r := Accumulate(resumo, vote);
  }
}
