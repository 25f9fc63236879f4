/** The rows read from the three CSV files and the nested summary `processar_ano` builds
    (processar_com_bairro.py:92-102, 166-172). A cell that is missing from a short row is `None`;
    an integer cell is `None` when Python's `int()` would raise on it. */
module Records {
  import opened Wrappers

  /** `(zona, local, secao)`, the key of the neighbourhood table. */
  datatype GeoKey = GeoKey(zone: int, place: int, section: int)

  /** A row of bairros.csv: "Zona Eleitoral", "Número do Local", "Seção", "Bairro". */
  datatype GeoRow = GeoRow(zone: Option<int>, place: Option<int>, section: Option<int>,
                           neighbourhood: Option<string>)

  /** `(cargo, numero)`, the key of the candidate roster. */
  datatype RosterKey = RosterKey(office: string, number: Option<string>)

  /** A row of consulta_cand_<year>_RJ.csv: DS_CARGO, NR_CANDIDATO, SQ_CANDIDATO. */
  datatype RosterRow = RosterRow(office: Option<string>, number: Option<string>, sq: Option<string>)

  /** A row of the vote file: NR_ZONA, NR_SECAO, NR_LOCAL_VOTACAO, DS_CARGO, NM_MUNICIPIO,
      NM_VOTAVEL, NR_VOTAVEL, QT_VOTOS and, in the years whose file has that column, SQ_CANDIDATO. */
  datatype VoteRow = VoteRow(zone: Option<int>, section: Option<int>, place: Option<int>,
                             office: Option<string>, city: Option<string>, name: Option<string>,
                             number: Option<string>, votes: Option<int>, sq: Option<string>)

  /** A candidate entry: `nome`, `numero`, `votos`, `sq_candidato`, `posicao`. */
  datatype Candidate = Candidate(name: string, number: Option<string>, votes: int,
                                 sq: Option<string>, position: nat)

  /** A neighbourhood entry of `BAIRROS`: `total_validos` and `candidatos`. */
  datatype Scope = Scope(total: int, candidates: seq<Candidate>)

  /** A city entry of `CIDADES`: `total_validos`, `candidatos` and `BAIRROS`. */
  datatype City = City(total: int, candidates: seq<Candidate>, neighbourhoods: map<string, Scope>)

  /** An office entry of the summary: `TOTAL_RJ` and `CIDADES`. */
  datatype Office = Office(stateTotal: int, cities: map<string, City>)

  /** `resumo`: office name to office entry. */
  type Summary = map<string, Office>

  /** What the auto-vivifying `defaultdict` factories create on first access (lines 92-102). */
  const EmptyScope := Scope(0, [])
  const EmptyCity := City(0, [], map[])
  const EmptyOffice := Office(0, map[])
}
