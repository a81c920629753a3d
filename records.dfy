/** Values shared by every stage of the extractor: the scalar values that
    appear in a reporting record, the record itself, and an Option type for
    the places where the program uses `null`. */
module Records {

  /** A scalar field value as the reporting API returns it. */
  datatype Value = Text(s: string) | Number(n: int) | Null

  /** One activity record: an open mapping from field name to value. */
  type Record = map<string, Value>

  /** `null` or a value. */
  datatype Option<T> = None | Some(value: T)
}

/** The static endpoint descriptions of `ENDPOINTS_CONFIG`. */
module Config {
  import opened Records

  /** One reporting source: where its pages come from, which field of a
      reply holds its records, where its CSV archive goes and, when
      `sqlTable` is a non-empty name, which table it is loaded into. */
  datatype Endpoint = Endpoint(
    name: string,
    bucket: string,
    url: string,
    dataField: string,
    idCampanha: int,
    sqlTable: Option<string>)

  /** The two configured endpoints, in their configured order. */
  const EndpointsConfig: seq<Endpoint> := [
    Endpoint("tabulacoesdetalhadas", "tabulacoesdetalhadas-Argus",
             "https://argus.app.br/apiargus/report/tabulacoesdetalhadas",
             "tabulacoes", 1, Some("argus_tabulacoes_duplicate")),
    Endpoint("ligacoesdetalhadas", "ligacoesdetalhadas-Argus",
             "https://argus.app.br/apiargus/report/ligacoesdetalhadas",
             "ligacoesDetalhadas", 1, None)
  ]

  /** The `if (endpoint.sqlTable)` test: a table is configured when the
      field holds a name that is not the empty string. */
  predicate HasTable(e: Endpoint)
  {
    e.sqlTable.Some? && e.sqlTable.value != ""
  }
}
