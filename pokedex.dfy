/**
 The derived views of the explorer, recomputed from the fetched records on
 every render: `filteredPokemons`, the records that pass the name search and
 the type selector, and `allTypes`, the distinct type names offered by the
 selector.
 */
module Pokedex {
  import opened Text

  /** One fetched record; `types` holds each slot's `type.name`, in order. */
  datatype Pokemon = Pokemon(id: int, name: string, types: seq<string>)

  // ---------------------------------------------------------------------------
  // filteredPokemons
  // ---------------------------------------------------------------------------

  /** `matchesSearch`: the name, exactly as fetched, includes the lower-cased search term. */
  predicate MatchesSearch(p: Pokemon, searchTerm: string): (b: bool)
    ensures searchTerm == "" ==> b
    ensures ToLower(searchTerm) != [] && ToLower(searchTerm)[0] !in p.name ==> !b
  {
    Includes(p.name, ToLower(searchTerm))
  }

  /** `matchesType`: no type is selected (the empty string is falsy), or some slot names it. */
  predicate MatchesType(p: Pokemon, selectedType: string): (b: bool)
    ensures selectedType == "" ==> b
    ensures selectedType != "" && p.types == [] ==> !b
  {
    selectedType == "" || selectedType in p.types
  }

  /** The callback given to `filter`. */
  predicate Keep(p: Pokemon, searchTerm: string, selectedType: string): (b: bool)
    ensures searchTerm == "" && selectedType == "" ==> b
    ensures selectedType != "" && p.types == [] ==> !b
    ensures ToLower(searchTerm) != [] && ToLower(searchTerm)[0] !in p.name ==> !b
  {
    MatchesSearch(p, searchTerm) && MatchesType(p, selectedType)
  }

  /**
   `Array.prototype.filter`: visits the elements in order and appends each one
   the callback accepts. The contract below only bounds the length; what the
   result is exactly is stated by `FilterByPositions` and `FilterByMembership`.
   */
  function FilterBy<T>(s: seq<T>, keep: T -> bool): (r: seq<T>)
    ensures |r| <= |s|
  {
    if s == [] then []
    else
      var init := FilterBy(s[..|s| - 1], keep);
      if keep(s[|s| - 1]) then init + [s[|s| - 1]] else init
  }

  /** `idx` lists positions below `n`, strictly increasing. */
  ghost predicate Ascending(idx: seq<nat>, n: nat) {
    (forall k :: 0 <= k < |idx| ==> idx[k] < n) &&
    (forall k, l :: 0 <= k < l < |idx| ==> idx[k] < idx[l])
  }

  /**
   The result of a filter is the subsequence of `s` at exactly the positions
   whose element the callback accepts: nothing is added or reordered, and an
   element is dropped only when the callback rejects it.
   */
  lemma {:induction false} FilterByPositions<T>(s: seq<T>, keep: T -> bool) returns (idx: seq<nat>)
    ensures Ascending(idx, |s|)
    ensures |idx| == |FilterBy(s, keep)|
    ensures forall k :: 0 <= k < |idx| ==> FilterBy(s, keep)[k] == s[idx[k]]
    ensures forall i :: 0 <= i < |s| ==> (i in idx <==> keep(s[i]))
  {
    if s == [] {
      idx := [];
    } else {
      var init, last := s[..|s| - 1], |s| - 1;
      var prev := FilterByPositions(init, keep);
      assert forall i :: 0 <= i < last ==> s[i] == init[i];
      if keep(s[last]) {
        idx := prev + [last];
        forall i | 0 <= i < last
          ensures i in idx <==> i in prev
        {
        }
      } else {
        idx := prev;
      }
    }
  }

  /** A filter keeps an element exactly when it occurs and the callback accepts it. */
  lemma {:induction false} FilterByMembership<T>(s: seq<T>, keep: T -> bool, x: T)
    ensures x in FilterBy(s, keep) <==> x in s && keep(x)
  {
    if s != [] {
      FilterByMembership(s[..|s| - 1], keep, x);
      assert s == s[..|s| - 1] + [s[|s| - 1]];
    }
  }

  /** A filter whose callback accepts every element returns its input. */
  lemma {:induction false} FilterByAcceptAll<T>(s: seq<T>, keep: T -> bool)
    requires forall x :: x in s ==> keep(x)
    ensures FilterBy(s, keep) == s
  {
    if s != [] {
      assert s[|s| - 1] in s;
      assert forall x :: x in s[..|s| - 1] ==> x in s;
      FilterByAcceptAll(s[..|s| - 1], keep);
      assert s[..|s| - 1] + [s[|s| - 1]] == s;
    }
  }

  /** Two callbacks that agree on every element filter alike. */
  lemma {:induction false} FilterByAgreeing<T>(s: seq<T>, keep1: T -> bool, keep2: T -> bool)
    requires forall x :: x in s ==> keep1(x) == keep2(x)
    ensures FilterBy(s, keep1) == FilterBy(s, keep2)
  {
    if s != [] {
      assert s[|s| - 1] in s;
      assert forall x :: x in s[..|s| - 1] ==> x in s;
      FilterByAgreeing(s[..|s| - 1], keep1, keep2);
    }
  }

  /**
   `filteredPokemons`: `pokemons.filter` with the search and type tests; never
   longer than `pokemons`. `FilterPositions` and `FilterMembership` state
   exactly which records it holds.
   */
  function Filter(pokemons: seq<Pokemon>, searchTerm: string, selectedType: string): (r: seq<Pokemon>)
    ensures |r| <= |pokemons|
    ensures pokemons == [] ==> r == []
  {
    FilterBy(pokemons, p => Keep(p, searchTerm, selectedType))
  }

  /**
   `filteredPokemons` is an order-preserving subsequence of `pokemons`: the
   records at exactly the positions whose record passes both tests.
   */
  lemma FilterPositions(pokemons: seq<Pokemon>, searchTerm: string, selectedType: string)
    returns (idx: seq<nat>)
    ensures Ascending(idx, |pokemons|)
    ensures |idx| == |Filter(pokemons, searchTerm, selectedType)|
    ensures forall k :: 0 <= k < |idx| ==> Filter(pokemons, searchTerm, selectedType)[k] == pokemons[idx[k]]
    ensures forall i :: 0 <= i < |pokemons| ==> (i in idx <==> Keep(pokemons[i], searchTerm, selectedType))
  {
    idx := FilterByPositions(pokemons, p => Keep(p, searchTerm, selectedType));
  }

  /** Soundness and completeness: a record is shown exactly when it was fetched and passes both tests. */
  lemma FilterMembership(pokemons: seq<Pokemon>, searchTerm: string, selectedType: string, p: Pokemon)
    ensures p in Filter(pokemons, searchTerm, selectedType) <==>
            p in pokemons && Includes(p.name, ToLower(searchTerm)) && (selectedType != "" ==> selectedType in p.types)
  {
    FilterByMembership(pokemons, q => Keep(q, searchTerm, selectedType), p);
  }

  /** With an empty search term and no selected type every record is shown, in order. */
  lemma FilterWithoutCriteria(pokemons: seq<Pokemon>)
    ensures Filter(pokemons, "", "") == pokemons
  {
    assert ToLower("") == "";
    forall p | p in pokemons
      ensures Keep(p, "", "")
    {
      IncludesEmpty(p.name);
    }
    FilterByAcceptAll(pokemons, p => Keep(p, "", ""));
  }

  /** Only the search term is case-folded: terms that lower-case alike select the same records. */
  lemma FilterIgnoresTermCase(pokemons: seq<Pokemon>, term1: string, term2: string, selectedType: string)
    requires ToLower(term1) == ToLower(term2)
    ensures Filter(pokemons, term1, selectedType) == Filter(pokemons, term2, selectedType)
  {
    FilterByAgreeing(pokemons, p => Keep(p, term1, selectedType), p => Keep(p, term2, selectedType));
  }

  /** ...but the name is compared as fetched: "MEW" and "mew" both miss a record named "Mew". */
  lemma NameIsNotCaseFolded()
    ensures Filter([Pokemon(151, "Mew", ["psychic"])], "MEW", "") == []
    ensures Filter([Pokemon(151, "Mew", ["psychic"])], "mew", "") == []
    ensures Filter([Pokemon(151, "mew", ["psychic"])], "MEW", "") == [Pokemon(151, "mew", ["psychic"])]
  {
    assert ToLower("MEW") == "mew";
    assert ToLower("mew") == "mew";
    assert !Includes("Mew", "mew") by {
      forall i
        ensures !OccursAt("Mew", "mew", i)
      {
        if 0 <= i && i + 3 <= 3 {
          assert "Mew"[i..i + 3][0] == 'M';
        }
      }
    }
    assert OccursAt("mew", "mew", 0);
  }

  /** With a type selected, a record without type slots is never shown. */
  lemma SelectedTypeNeedsASlot(pokemons: seq<Pokemon>, searchTerm: string, selectedType: string, p: Pokemon)
    requires selectedType != "" && p.types == []
    ensures p !in Filter(pokemons, searchTerm, selectedType)
  {
    FilterMembership(pokemons, searchTerm, selectedType, p);
  }

  // ---------------------------------------------------------------------------
  // allTypes
  // ---------------------------------------------------------------------------

  /** `pokemons.flatMap((p) => p.types.map(...))`: every type name, record by record, slot by slot. */
  function TypeNames(pokemons: seq<Pokemon>): (r: seq<string>)
    ensures forall t :: t in r <==> exists i :: 0 <= i < |pokemons| && t in pokemons[i].types
  {
    if pokemons == [] then []
    else
      var rest := TypeNames(pokemons[1..]);
      assert forall i :: 1 <= i < |pokemons| ==> pokemons[i] == pokemons[1..][i - 1];
      pokemons[0].types + rest
  }

  /** Flattening one more record appends its type names, slot by slot. */
  lemma {:induction false} TypeNamesAppend(pokemons: seq<Pokemon>, p: Pokemon)
    ensures TypeNames(pokemons + [p]) == TypeNames(pokemons) + p.types
  {
    if pokemons != [] {
      assert (pokemons + [p])[1..] == pokemons[1..] + [p];
      TypeNamesAppend(pokemons[1..], p);
    }
  }

  /** No value occurs twice. */
  ghost predicate NoDuplicates<T>(s: seq<T>) {
    forall k, l :: 0 <= k < l < |s| ==> s[k] != s[l]
  }

  /**
   `Array.from(new Set(s))`: a Set adds a value only when it is not yet
   present and iterates in insertion order.
   */
  function Distinct<T(==, !new)>(s: seq<T>): (r: seq<T>)
    ensures forall x :: x in r <==> x in s
    ensures NoDuplicates(r)
    ensures |r| <= |s|
  {
    if s == [] then []
    else
      var seen := Distinct(s[..|s| - 1]);
      var x := s[|s| - 1];
      assert s == s[..|s| - 1] + [x];
      if x in seen then seen else seen + [x]
  }

  /** The position of the first occurrence of `x` in `s`. */
  function FirstIndex<T(==)>(s: seq<T>, x: T): (i: nat)
    requires x in s
    ensures i < |s| && s[i] == x && x !in s[..i]
  {
    if s[0] == x then 0
    else
      var i := 1 + FirstIndex(s[1..], x);
      assert s[..i] == [s[0]] + s[1..][..i - 1];
      i
  }

  /** Appending keeps the first occurrence of a value already present. */
  lemma FirstIndexOfPrefix<T>(s: seq<T>, y: T, x: T)
    requires y in s
    ensures FirstIndex(s + [x], y) == FirstIndex(s, y)
  {
    var j := FirstIndex(s, y);
    assert (s + [x])[j] == y;
  }

  /** The distinct values are listed in the order of their first occurrence. */
  lemma {:induction false} DistinctFirstOccurrenceOrder<T(!new)>(s: seq<T>)
    ensures forall k, l :: 0 <= k < l < |Distinct(s)| ==>
              FirstIndex(s, Distinct(s)[k]) < FirstIndex(s, Distinct(s)[l])
  {
    if s != [] {
      var init, x := s[..|s| - 1], s[|s| - 1];
      assert s == init + [x];
      var seen := Distinct(init);
      DistinctFirstOccurrenceOrder(init);
      forall y | y in seen
        ensures FirstIndex(s, y) == FirstIndex(init, y) < |init|
      {
        FirstIndexOfPrefix(init, y, x);
      }
      if x !in seen {
        assert x !in init;
        assert FirstIndex(s, x) == |init|;
        forall k, l | 0 <= k < l < |Distinct(s)|
          ensures FirstIndex(s, Distinct(s)[k]) < FirstIndex(s, Distinct(s)[l])
        {
          assert Distinct(s)[k] == seen[k];
          if l < |seen| {
            assert Distinct(s)[l] == seen[l];
          }
        }
      }
    }
  }

  /** `allTypes`: the distinct type names in order of first appearance. */
  function AllTypes(pokemons: seq<Pokemon>): (r: seq<string>)
    ensures NoDuplicates(r)
    ensures forall t :: t in r <==> exists i :: 0 <= i < |pokemons| && t in pokemons[i].types
    ensures pokemons == [] ==> r == []
  {
    Distinct(TypeNames(pokemons))
  }

  /** `allTypes` is ordered by first occurrence in the flattened record-by-record, slot-by-slot traversal. */
  lemma AllTypesOrder(pokemons: seq<Pokemon>)
    ensures forall k, l :: 0 <= k < l < |AllTypes(pokemons)| ==>
              FirstIndex(TypeNames(pokemons), AllTypes(pokemons)[k]) < FirstIndex(TypeNames(pokemons), AllTypes(pokemons)[l])
  {
    DistinctFirstOccurrenceOrder(TypeNames(pokemons));
  }
}
