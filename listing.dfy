/** The one entity both pipelines produce: a listing record whose six fields are
    strings, in the column order of the output file's header. */
module Listing {

  datatype Record = Record(
    rank: string,
    name: string,
    symbol: string,
    price: string,
    change24h: string,
    marketCap: string)

  /** The placeholder written for a field whose tag is absent. */
  const NA: string := "N/A"
}
