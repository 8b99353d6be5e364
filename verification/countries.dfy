/** One directory entry as the view uses it.

    The fetched record carries many more fields (official name, flags,
    population, ...), but the view reads only `name.common` and `capital`,
    so the model keeps exactly those two. */
module Countries {
  import opened Wrappers

  /** `common` is `name.common`, the de-facto key for rows and favourites.
      `capital` is `None` when the record has no `capital` field at all, and
      `Some(list)` (possibly an empty list) when it has one. */
  datatype Country = Country(common: string, capital: Option<seq<string>>)
}
