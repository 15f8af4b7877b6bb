/** Identifiers. The wrapper keeps an id apart from ordinary text. */
module Ids {
  datatype Id = Id(text: string)
}
