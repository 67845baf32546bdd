/** What the two list components render once the markup is stripped away:
    either a run of loading placeholders or the rows of a result list. */
module View {

  datatype Listing<T> = Placeholders(count: nat) | Rows(items: seq<T>)
}
