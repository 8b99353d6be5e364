/** The favourites list and its toggle.

    Favourites are a list of whole records matched by common name. Marking a
    row scans the list for that name; toggling removes every entry with the
    name when one is present and appends the record at the end otherwise. */
module Favourites {
  import opened Countries

  /** The set of common names held by a favourites list. */
  function Names(favs: seq<Country>): set<string>
  {
    set i | 0 <= i < |favs| :: favs[i].common
  }

  /** The membership scan `favs.some(fav => fav.name.common === name)`. */
  function IsFavourite(favs: seq<Country>, name: string): (b: bool)
    ensures b <==> exists i :: 0 <= i < |favs| && favs[i].common == name
  {
    if |favs| == 0 then false
    else if favs[0].common == name then true
    else
      var b := IsFavourite(favs[1..], name);
      assert b ==> exists i :: 0 <= i < |favs| && favs[i].common == name by {
        if b {
          var j :| 0 <= j < |favs[1..]| && favs[1..][j].common == name;
          assert favs[j + 1].common == name;
        }
      }
      assert (exists i :: 0 <= i < |favs| && favs[i].common == name) ==> b by {
        if exists i :: 0 <= i < |favs| && favs[i].common == name {
          var j :| 0 <= j < |favs| && favs[j].common == name;
          assert j != 0;
          assert favs[1..][j - 1].common == name;
        }
      }
      b
  }

  /** The number of entries of `favs` whose common name is `name`. */
  function CountNamed(favs: seq<Country>, name: string): (n: nat)
    ensures n <= |favs|
  {
    if |favs| == 0 then 0
    else (if favs[0].common == name then 1 else 0) + CountNamed(favs[1..], name)
  }

  /** `a` occurs in `b` in order, possibly with other entries in between. */
  predicate IsSubsequence(a: seq<Country>, b: seq<Country>)
  {
    if |a| == 0 then true
    else if |b| == 0 then false
    else if a[0] == b[0] then IsSubsequence(a[1..], b[1..])
    else IsSubsequence(a, b[1..])
  }

  /** No entry of `favs` has common name `name`. */
  predicate Avoids(favs: seq<Country>, name: string)
  {
    forall i :: 0 <= i < |favs| ==> favs[i].common != name
  }

  /** The filter `favs.filter(fav => fav.name.common !== name)`. */
  function RemoveNamed(favs: seq<Country>, name: string): (r: seq<Country>)
    ensures Avoids(r, name)
    ensures |r| == |favs| - CountNamed(favs, name)
    ensures IsSubsequence(r, favs)
    ensures forall i :: 0 <= i < |r| ==> r[i] in favs
    ensures forall i :: 0 <= i < |favs| && favs[i].common != name ==> favs[i] in r
  {
    if |favs| == 0 then []
    else
      var rest := RemoveNamed(favs[1..], name);
      assert forall i :: 1 <= i < |favs| ==> favs[i] == favs[1..][i - 1];
      if favs[0].common == name then
        SubsequenceExtend(rest, favs[1..], favs[0]);
        assert favs == [favs[0]] + favs[1..];
        rest
      else
        assert ([favs[0]] + rest)[1..] == rest;
        [favs[0]] + rest
  }

  /** `handleFavouriteChange`: the favourites list after the user clicks the
      checkbox of record `c`. */
  function Toggle(favs: seq<Country>, c: Country): (r: seq<Country>)
    ensures IsFavourite(r, c.common) <==> !IsFavourite(favs, c.common)
    ensures !IsFavourite(favs, c.common) ==> r == favs + [c] && |r| == |favs| + 1
    ensures IsFavourite(favs, c.common) ==>
      Avoids(r, c.common) && IsSubsequence(r, favs) &&
      |r| == |favs| - CountNamed(favs, c.common) && CountNamed(favs, c.common) >= 1
  {
    if IsFavourite(favs, c.common) then
      CountNamedPositive(favs, c.common);
      RemoveNamed(favs, c.common)
    else
      assert (favs + [c])[|favs|] == c;
      favs + [c]
  }

  /** No two entries of a favourites list share a common name. */
  predicate UniqueNames(favs: seq<Country>)
  {
    forall i, j :: 0 <= i < j < |favs| ==> favs[i].common != favs[j].common
  }

  // ---------------------------------------------------------------------
  // Helper lemmas
  // ---------------------------------------------------------------------

  lemma {:induction false} SubsequenceExtend(a: seq<Country>, b: seq<Country>, x: Country)
    requires IsSubsequence(a, b)
    ensures IsSubsequence(a, [x] + b)
    decreases |a| + |b| + 1
  {
    var b' := [x] + b;
    assert b'[1..] == b;
    if |a| == 0 {
    } else if a[0] == x {
      SubsequenceTail(a, b);
    }
  }

  lemma {:induction false} SubsequenceTail(a: seq<Country>, b: seq<Country>)
    requires |a| > 0
    requires IsSubsequence(a, b)
    ensures IsSubsequence(a[1..], b)
    decreases |a| + |b|
  {
    if |b| == 0 {
    } else if a[0] == b[0] {
      SubsequenceExtend(a[1..], b[1..], b[0]);
      assert [b[0]] + b[1..] == b;
    } else {
      SubsequenceTail(a, b[1..]);
      SubsequenceExtend(a[1..], b[1..], b[0]);
      assert [b[0]] + b[1..] == b;
    }
  }

  lemma {:induction false} CountNamedPositive(favs: seq<Country>, name: string)
    requires IsFavourite(favs, name)
    ensures CountNamed(favs, name) >= 1
  {
    if favs[0].common != name {
      CountNamedPositive(favs[1..], name);
    }
  }

  /** A name-free subsequence can hold at most the entries not named `name`. */
  lemma {:induction false} AvoidingSubsequenceBound(r: seq<Country>, favs: seq<Country>, name: string)
    requires IsSubsequence(r, favs)
    requires Avoids(r, name)
    ensures |r| <= |favs| - CountNamed(favs, name)
  {
    if |r| == 0 {
    } else if r[0] == favs[0] {
      assert r[0].common != name;
      AvoidingSubsequenceBound(r[1..], favs[1..], name);
    } else {
      AvoidingSubsequenceBound(r, favs[1..], name);
    }
  }

  lemma {:induction false} RemoveNamedAppend(a: seq<Country>, b: seq<Country>, name: string)
    ensures RemoveNamed(a + b, name) == RemoveNamed(a, name) + RemoveNamed(b, name)
  {
    if |a| == 0 {
      assert a + b == b;
    } else {
      assert (a + b)[1..] == a[1..] + b;
      RemoveNamedAppend(a[1..], b, name);
    }
  }

  lemma {:induction false} RemoveNamedAbsent(favs: seq<Country>, name: string)
    requires !IsFavourite(favs, name)
    ensures RemoveNamed(favs, name) == favs
  {
    if |favs| > 0 {
      RemoveNamedAbsent(favs[1..], name);
      assert [favs[0]] + favs[1..] == favs;
    }
  }

  lemma {:induction false} IsFavouriteNames(favs: seq<Country>, name: string)
    ensures IsFavourite(favs, name) <==> name in Names(favs)
  {
    if name in Names(favs) {
      var i :| 0 <= i < |favs| && favs[i].common == name;
    }
  }

  // ---------------------------------------------------------------------
  // Properties
  // ---------------------------------------------------------------------

  /** The filter is the only name-free subsequence of maximal length: any
      list that keeps entries of `favs` in order, drops every entry named
      `name` and keeps all the others is exactly `RemoveNamed(favs, name)`. */
  lemma {:induction false} RemoveNamedUnique(r: seq<Country>, favs: seq<Country>, name: string)
    requires IsSubsequence(r, favs)
    requires Avoids(r, name)
    requires |r| == |favs| - CountNamed(favs, name)
    ensures r == RemoveNamed(favs, name)
  {
    if |favs| == 0 {
    } else if favs[0].common == name {
      if |r| > 0 {
        assert r[0] != favs[0];
      }
      RemoveNamedUnique(r, favs[1..], name);
    } else {
      assert |r| > 0;
      if r[0] == favs[0] {
        RemoveNamedUnique(r[1..], favs[1..], name);
        assert r == [r[0]] + r[1..];
      } else {
        AvoidingSubsequenceBound(r, favs[1..], name);
        assert false;
      }
    }
  }

  /** Removing the entries named `name` twice is the same as once. */
  lemma {:induction false} RemoveNamedIdempotent(favs: seq<Country>, name: string)
    ensures RemoveNamed(RemoveNamed(favs, name), name) == RemoveNamed(favs, name)
  {
    var r := RemoveNamed(favs, name);
    assert !IsFavourite(r, name);
    RemoveNamedAbsent(r, name);
  }

  /** Entries whose name differs from the toggled one are kept, in their
      original relative order, whichever branch the toggle takes. */
  lemma {:induction false} ToggleKeepsOthersInOrder(favs: seq<Country>, c: Country)
    ensures RemoveNamed(Toggle(favs, c), c.common) == RemoveNamed(favs, c.common)
  {
    if IsFavourite(favs, c.common) {
      RemoveNamedIdempotent(favs, c.common);
    } else {
      RemoveNamedAppend(favs, [c], c.common);
      assert RemoveNamed([c], c.common) == [];
    }
  }

  /** Toggling changes the membership of the toggled name only. */
  lemma {:induction false} ToggleOtherNames(favs: seq<Country>, c: Country, name: string)
    requires name != c.common
    ensures IsFavourite(Toggle(favs, c), name) == IsFavourite(favs, name)
  {
    var r := Toggle(favs, c);
    if IsFavourite(favs, c.common) {
      if IsFavourite(favs, name) {
        var i :| 0 <= i < |favs| && favs[i].common == name;
        assert favs[i] in r;
      }
      if IsFavourite(r, name) {
        var i :| 0 <= i < |r| && r[i].common == name;
        assert r[i] in favs;
      }
    } else {
      assert r == favs + [c];
      if IsFavourite(r, name) {
        var i :| 0 <= i < |r| && r[i].common == name;
        assert i < |favs|;
        assert favs[i].common == name;
      }
      if IsFavourite(favs, name) {
        var i :| 0 <= i < |favs| && favs[i].common == name;
        assert r[i].common == name;
      }
    }
  }

  /** The set of favourite names after a toggle: the toggled name leaves it
      when present and joins it when absent. */
  lemma ToggleNames(favs: seq<Country>, c: Country)
    ensures Names(Toggle(favs, c)) ==
      if c.common in Names(favs) then Names(favs) - {c.common}
      else Names(favs) + {c.common}
  {
    var r := Toggle(favs, c);
    IsFavouriteNames(favs, c.common);
    IsFavouriteNames(r, c.common);
    forall name | name != c.common
      ensures name in Names(r) <==> name in Names(favs)
    {
      ToggleOtherNames(favs, c, name);
      IsFavouriteNames(favs, name);
      IsFavouriteNames(r, name);
    }
  }

  /** Toggling a record whose name is absent and then toggling it again
      gives back exactly the original list. */
  lemma {:induction false} ToggleTwiceRestores(favs: seq<Country>, c: Country)
    requires !IsFavourite(favs, c.common)
    ensures Toggle(Toggle(favs, c), c) == favs
  {
    RemoveNamedAppend(favs, [c], c.common);
    RemoveNamedAbsent(favs, c.common);
    assert RemoveNamed([c], c.common) == [];
  }

  /** Whatever the starting list, two toggles of the same record leave the
      favourite names as they were. */
  lemma {:induction false} ToggleTwiceSameNames(favs: seq<Country>, c: Country)
    ensures Names(Toggle(Toggle(favs, c), c)) == Names(favs)
  {
    ToggleNames(favs, c);
    ToggleNames(Toggle(favs, c), c);
  }

  /** One toggle keeps a list free of duplicate names. */
  lemma {:induction false} ToggleKeepsUniqueNames(favs: seq<Country>, c: Country)
    requires UniqueNames(favs)
    ensures UniqueNames(Toggle(favs, c))
  {
    var r := Toggle(favs, c);
    if IsFavourite(favs, c.common) {
      SubsequenceUnique(r, favs);
    } else {
      forall i, j | 0 <= i < j < |r|
        ensures r[i].common != r[j].common
      {
        if j == |favs| {
          assert r[i] == favs[i];
        } else {
          assert r[i] == favs[i] && r[j] == favs[j];
        }
      }
    }
  }

  /** The favourites list after the user clicks the checkboxes of `clicks`,
      in order, starting from `favs`. */
  function ApplyToggles(favs: seq<Country>, clicks: seq<Country>): seq<Country>
    decreases |clicks|
  {
    if |clicks| == 0 then favs
    else ApplyToggles(Toggle(favs, clicks[0]), clicks[1..])
  }

  /** Favourites start empty and change only by toggles, so whatever the
      clicks, the list never holds two entries with the same name. */
  lemma {:induction false} ClicksKeepUniqueNames(clicks: seq<Country>)
    ensures UniqueNames(ApplyToggles([], clicks))
  {
    TogglesKeepUniqueNames([], clicks);
  }

  lemma {:induction false} TogglesKeepUniqueNames(favs: seq<Country>, clicks: seq<Country>)
    requires UniqueNames(favs)
    ensures UniqueNames(ApplyToggles(favs, clicks))
    decreases |clicks|
  {
    if |clicks| > 0 {
      ToggleKeepsUniqueNames(favs, clicks[0]);
      TogglesKeepUniqueNames(Toggle(favs, clicks[0]), clicks[1..]);
    }
  }

  lemma {:induction false} SubsequenceUnique(a: seq<Country>, b: seq<Country>)
    requires IsSubsequence(a, b)
    requires UniqueNames(b)
    ensures UniqueNames(a)
  {
    if |a| == 0 {
    } else if a[0] == b[0] {
      SubsequenceUnique(a[1..], b[1..]);
      SubsequenceMembers(a[1..], b[1..]);
      forall j | 0 < j < |a|
        ensures a[0].common != a[j].common
      {
        assert a[j] == a[1..][j - 1];
        var k :| 0 <= k < |b[1..]| && b[1..][k] == a[j];
        assert b[k + 1] == a[j];
      }
      forall i, j | 0 <= i < j < |a|
        ensures a[i].common != a[j].common
      {
        if i > 0 {
          assert a[i] == a[1..][i - 1] && a[j] == a[1..][j - 1];
        }
      }
    } else {
      SubsequenceUnique(a, b[1..]);
    }
  }

  lemma {:induction false} SubsequenceMembers(a: seq<Country>, b: seq<Country>)
    requires IsSubsequence(a, b)
    ensures forall i :: 0 <= i < |a| ==> exists k :: 0 <= k < |b| && b[k] == a[i]
  {
    if |a| == 0 {
    } else if a[0] == b[0] {
      SubsequenceMembers(a[1..], b[1..]);
      forall i | 0 <= i < |a|
        ensures exists k :: 0 <= k < |b| && b[k] == a[i]
      {
        if i == 0 {
          assert b[0] == a[0];
        } else {
          assert a[i] == a[1..][i - 1];
          var k :| 0 <= k < |b[1..]| && b[1..][k] == a[i];
          assert b[k + 1] == a[i];
        }
      }
    } else {
      SubsequenceMembers(a, b[1..]);
      forall i | 0 <= i < |a|
        ensures exists k :: 0 <= k < |b| && b[k] == a[i]
      {
        var k :| 0 <= k < |b[1..]| && b[1..][k] == a[i];
        assert b[k + 1] == a[i];
      }
    }
  }

  /** On a list without duplicate names, removing a present name shrinks
      the list by exactly one entry. */
  lemma {:induction false} ToggleOffUniqueShrinksByOne(favs: seq<Country>, c: Country)
    requires UniqueNames(favs)
    requires IsFavourite(favs, c.common)
    ensures |Toggle(favs, c)| == |favs| - 1
  {
    CountNamedUniqueAtMostOne(favs, c.common);
  }

  lemma {:induction false} CountNamedUniqueAtMostOne(favs: seq<Country>, name: string)
    requires UniqueNames(favs)
    ensures CountNamed(favs, name) <= 1
  {
    if |favs| > 0 {
      assert UniqueNames(favs[1..]) by {
        forall i, j | 0 <= i < j < |favs[1..]|
          ensures favs[1..][i].common != favs[1..][j].common
        {
          assert favs[1..][i] == favs[i + 1] && favs[1..][j] == favs[j + 1];
        }
      }
      CountNamedUniqueAtMostOne(favs[1..], name);
      if favs[0].common == name {
        assert !IsFavourite(favs[1..], name);
        CountNamedAbsentZero(favs[1..], name);
      }
    }
  }

  lemma {:induction false} CountNamedAbsentZero(favs: seq<Country>, name: string)
    requires !IsFavourite(favs, name)
    ensures CountNamed(favs, name) == 0
  {
    if |favs| > 0 {
      CountNamedAbsentZero(favs[1..], name);
    }
  }
}
