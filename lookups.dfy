/** The two lookup builders of processar_com_bairro.py: `carregar_bairros` (lines 24-42) and
    `carregar_candidatos` (lines 49-74), with the rule of lines 88-90 that only 2010 and 2014 use the
    candidate roster. */
module Lookups {
  import opened Wrappers
  import opened Text
  import opened Records
  import opened Tables

  /** The key of a bairros.csv row, or `None` when one of the three `int()` calls raises (lines 32-36). */
  function GeoKeyOf(row: GeoRow): Option<GeoKey> {
    if row.zone.Some? && row.place.Some? && row.section.Some?
    then Some(GeoKey(row.zone.value, row.place.value, row.section.value))
    else None
  }

  /** The value a bairros.csv row writes (line 37); it may be `""`. */
  function NeighbourhoodOf(row: GeoRow): string {
    Normalize(row.neighbourhood)
  }

  /** The neighbourhood table as `carregar_bairros` leaves it. */
  function NeighbourhoodTable(rows: seq<GeoRow>): map<GeoKey, string> {
    Table(rows, GeoKeyOf, NeighbourhoodOf)
  }

  /** `carregar_bairros`: one pass over the rows of bairros.csv, skipping the rows whose key does not
      parse; a later row with the same key overwrites an earlier one. */
  method LoadNeighbourhoods(rows: seq<GeoRow>) returns (mapa: map<GeoKey, string>)
    ensures mapa == NeighbourhoodTable(rows)
    ensures forall k :: k in mapa ==> exists i :: 0 <= i < |rows| && GeoKeyOf(rows[i]) == Some(k)
    ensures forall i :: 0 <= i < |rows| && GeoKeyOf(rows[i]).Some? ==> GeoKeyOf(rows[i]).value in mapa
    ensures forall k, i :: LastWithKey(rows, GeoKeyOf, k, i) ==> mapa[k] == Normalize(rows[i].neighbourhood)
  {
    mapa := map[];
    for i := 0 to |rows|
      invariant mapa == NeighbourhoodTable(rows[..i])
    {
      assert rows[..i + 1][..i] == rows[..i];
      var row := rows[i];
      if row.zone.Some? && row.place.Some? && row.section.Some? {
        var chave := GeoKey(row.zone.value, row.place.value, row.section.value);
        mapa := mapa[chave := Normalize(row.neighbourhood)];
      }
    }
    assert rows[..|rows|] == rows;
    TableLastWins(rows, GeoKeyOf, NeighbourhoodOf);
  }

  /** The key of a roster row (line 67); no cell of a roster row is parsed, so every row has one. */
  function RosterKeyOf(row: RosterRow): Option<RosterKey> {
    Some(RosterKey(Normalize(row.office), row.number))
  }

  /** The value a roster row writes: its SQ_CANDIDATO cell (line 68). */
  function SequenceOf(row: RosterRow): Option<string> {
    row.sq
  }

  /** The roster as `carregar_candidatos` returns it; a missing file gives the empty table (lines 53-54). */
  function RosterTable(file: Option<seq<RosterRow>>): map<RosterKey, Option<string>> {
    match file
    case None => map[]
    case Some(rows) => Table(rows, RosterKeyOf, SequenceOf)
  }

  /** `carregar_candidatos`: the empty table when the roster file does not exist, otherwise one pass over
      its rows in which the last row for a `(cargo, numero)` key wins. */
  method LoadCandidates(file: Option<seq<RosterRow>>) returns (mapa: map<RosterKey, Option<string>>)
    ensures mapa == RosterTable(file)
    ensures file == None ==> mapa == map[]
    ensures file.Some? ==> forall i :: 0 <= i < |file.value| ==> RosterKeyOf(file.value[i]).value in mapa
    ensures file.Some? ==> forall k :: k in mapa ==> exists i :: 0 <= i < |file.value| && RosterKeyOf(file.value[i]) == Some(k)
    ensures file.Some? ==> forall k, i :: LastWithKey(file.value, RosterKeyOf, k, i) ==> mapa[k] == file.value[i].sq
  {
    mapa := map[];
    if file == None {
      return;
    }
    var rows := file.value;
    for i := 0 to |rows|
      invariant mapa == Table(rows[..i], RosterKeyOf, SequenceOf)
    {
      assert rows[..i + 1][..i] == rows[..i];
      var row := rows[i];
      var chave := RosterKey(Normalize(row.office), row.number);
      mapa := mapa[chave := row.sq];
    }
    assert rows[..|rows|] == rows;
    TableLastWins(rows, RosterKeyOf, SequenceOf);
  }

  /** Lines 88-90: the roster is consulted only for the years 2010 and 2014. */
  function RosterForYear(year: string, file: Option<seq<RosterRow>>): (r: map<RosterKey, Option<string>>)
    ensures year == "2010" || year == "2014" ==> r == RosterTable(file)
    ensures year != "2010" && year != "2014" ==> r == map[]
  {
    if year == "2010" || year == "2014" then RosterTable(file) else map[]
  }
}
