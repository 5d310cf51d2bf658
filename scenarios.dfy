/**
 The explorer's behaviour on a two-record sample: a grass-type "bulbasaur"
 and a fire-type "charmander".
 */
module Scenarios {
  import opened Text
  import opened Pokedex
  import opened Shell

  const Bulbasaur := Pokemon(1, "bulbasaur", ["grass"])
  const Charmander := Pokemon(2, "charmander", ["fire"])

  /** Filtering two records keeps each one that passes, in order. */
  lemma FilterTwo(a: Pokemon, b: Pokemon, searchTerm: string, selectedType: string)
    ensures Filter([a, b], searchTerm, selectedType) ==
            (if Keep(a, searchTerm, selectedType) then [a] else []) +
            (if Keep(b, searchTerm, selectedType) then [b] else [])
  {
    var keep := p => Keep(p, searchTerm, selectedType);
    assert [a, b][..1] == [a];
    assert [a][..0] == [];
    assert FilterBy([a], keep) == if keep(a) then [a] else [];
    assert FilterBy([a, b], keep) == FilterBy([a], keep) + if keep(b) then [b] else [];
  }

  /** The sample offers both type names, grass first. */
  lemma SampleTypes()
    ensures AllTypes([Bulbasaur, Charmander]) == ["grass", "fire"]
  {
    var names := TypeNames([Bulbasaur, Charmander]);
    assert [Bulbasaur, Charmander][1..] == [Charmander];
    assert TypeNames([Charmander]) == ["fire"];
    assert names == ["grass", "fire"];
    assert names[..1] == ["grass"] && ["grass"][..0] == [];
    assert Distinct(["grass"]) == ["grass"];
  }

  /** With no criteria both records are shown. */
  lemma SampleWithoutCriteria()
    ensures Filter([Bulbasaur, Charmander], "", "") == [Bulbasaur, Charmander]
  {
    FilterWithoutCriteria([Bulbasaur, Charmander]);
  }

  /** Searching "char", or "CHAR", shows only charmander. */
  lemma SampleSearch()
    ensures Filter([Bulbasaur, Charmander], "char", "") == [Charmander]
    ensures Filter([Bulbasaur, Charmander], "CHAR", "") == [Charmander]
  {
    assert ToLower("char") == "char";
    FilterIgnoresTermCase([Bulbasaur, Charmander], "char", "CHAR", "");
    assert ToLower("char")[0] == 'c' && 'c' !in Bulbasaur.name;
    assert !Keep(Bulbasaur, "char", "");
    assert OccursAt("charmander", "char", 0);
    assert Keep(Charmander, "char", "");
    FilterTwo(Bulbasaur, Charmander, "char", "");
  }

  /** Selecting "fire" shows only charmander; selecting "water" shows nothing. */
  lemma SampleTypeSelection()
    ensures Filter([Bulbasaur, Charmander], "", "fire") == [Charmander]
    ensures Filter([Bulbasaur, Charmander], "", "water") == []
  {
    assert ToLower("") == "";
    IncludesEmpty("bulbasaur");
    IncludesEmpty("charmander");
    assert !Keep(Bulbasaur, "", "fire") && Keep(Charmander, "", "fire");
    assert !Keep(Bulbasaur, "", "water") && !Keep(Charmander, "", "water");
    FilterTwo(Bulbasaur, Charmander, "", "fire");
    FilterTwo(Bulbasaur, Charmander, "", "water");
  }

  /** Searching "zzz" shows nothing. */
  lemma SampleSearchWithoutMatch()
    ensures Filter([Bulbasaur, Charmander], "zzz", "") == []
  {
    assert ToLower("zzz") == "zzz" && ToLower("zzz")[0] == 'z';
    assert 'z' !in Bulbasaur.name && 'z' !in Charmander.name;
    assert !Keep(Bulbasaur, "zzz", "");
    assert !Keep(Charmander, "zzz", "");
    FilterTwo(Bulbasaur, Charmander, "zzz", "");
  }

  /** A search no name matches, or a type no record has, renders the placeholder, not an error. */
  lemma SampleNoMatch()
    ensures Render([Bulbasaur, Charmander], "zzz", "", false, "") == NoResults(["grass", "fire"])
    ensures Render([Bulbasaur, Charmander], "", "water", false, "") == NoResults(["grass", "fire"])
  {
    SampleSearchWithoutMatch();
    SampleTypes();
    SampleTypeSelection();
  }
}
