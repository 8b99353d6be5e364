/** The data shown in each table row: common name, capital cell and the
    state of the favourite checkbox. */
module Table {
  import opened Wrappers
  import opened Countries
  import opened Favourites

  const Placeholder: string := "N/A"

  /** The capital cell `row.capital ? row.capital[0] : 'N/A'`.

      A missing `capital` shows the placeholder. A present list shows its
      first element; a present but EMPTY list is truthy, so the cell gets
      `capital[0]` of an empty array, which is `undefined` (`None` here). */
  function CapitalCell(capital: Option<seq<string>>): (cell: Option<string>)
    ensures cell.None? <==> capital == Some([])
    ensures capital.None? ==> cell == Some(Placeholder)
    ensures capital.Some? && |capital.value| > 0 ==> cell == Some(capital.value[0])
  {
    match capital
    case None => Some(Placeholder)
    case Some(caps) => if |caps| > 0 then Some(caps[0]) else None
  }

  /** The cell reads "N/A" exactly when the capital is missing or when the
      first listed capital is itself the text "N/A"; a real capital can
      therefore not be told apart from the placeholder by its text alone. */
  lemma CapitalCellShowsPlaceholder(capital: Option<seq<string>>)
    ensures CapitalCell(capital) == Some(Placeholder) <==>
      capital.None? || (|capital.value| > 0 && capital.value[0] == Placeholder)
  {
  }

  /** Whether a row's checkbox is checked: the favourites scan for the row's
      common name. */
  function Checked(favs: seq<Country>, row: Country): (b: bool)
    ensures b <==> row.common in Names(favs)
  {
    IsFavouriteNames(favs, row.common);
    IsFavourite(favs, row.common)
  }

  /** Marking depends only on names: two rows with the same common name,
      checked against two favourites lists holding the same names, agree. */
  lemma CheckedByNameOnly(f1: seq<Country>, f2: seq<Country>, r1: Country, r2: Country)
    requires Names(f1) == Names(f2)
    requires r1.common == r2.common
    ensures Checked(f1, r1) == Checked(f2, r2)
  {
  }

  datatype Row = Row(name: string, capital: Option<string>, checked: bool)

  /** One row per fetched record, in the fetched order. */
  function Rows(countries: seq<Country>, favs: seq<Country>): (rows: seq<Row>)
    ensures |rows| == |countries|
    ensures forall i :: 0 <= i < |rows| ==>
      rows[i].name == countries[i].common &&
      rows[i].capital == CapitalCell(countries[i].capital) &&
      (rows[i].checked <==> exists k :: 0 <= k < |favs| && favs[k].common == countries[i].common)
  {
    seq(|countries|, i requires 0 <= i < |countries| =>
      Row(countries[i].common, CapitalCell(countries[i].capital), Checked(favs, countries[i])))
  }

  /** Toggling a favourite leaves the displayed list's names, capitals and
      order alone; the only rows whose checkbox changes are those with the
      toggled name, and each of them flips. */
  lemma ToggleChangesOnlyCheckboxes(countries: seq<Country>, favs: seq<Country>, c: Country)
    ensures var before := Rows(countries, favs);
            var after := Rows(countries, Toggle(favs, c));
            |after| == |before| &&
            forall i :: 0 <= i < |after| ==>
              after[i].name == before[i].name &&
              after[i].capital == before[i].capital &&
              (after[i].checked <==>
                 if countries[i].common == c.common then !before[i].checked
                 else before[i].checked)
  {
    forall i | 0 <= i < |countries| && countries[i].common != c.common
      ensures IsFavourite(Toggle(favs, c), countries[i].common) == IsFavourite(favs, countries[i].common)
    {
      ToggleOtherNames(favs, c, countries[i].common);
    }
  }
}
