/** The empty-input guard of `convertJsonToCsv`. The CSV rendering itself
    belongs to a library and is a parameter: `parse` gives its output, or
    `None` when it fails. */
module Csv {
  import opened Records

  function ConvertJsonToCsv(data: seq<Record>, parse: seq<Record> -> Option<string>): (csv: Option<string>)
    ensures data == [] ==> csv == None
    ensures csv.Some? ==> data != [] && csv == parse(data)
    ensures data != [] && parse(data).Some? ==> csv.Some?
  {
    if |data| == 0 then None else parse(data)
  }
}
