/**
 The `App` component: its state (`pokemons`, `searchTerm`, `selectedType`,
 `loading`, `error`), the one-shot `getData` load that settles it, and the
 choice of what a render shows.
 */
module Shell {
  import opened Pokedex

  /** The message shown when the fetch fails; the failure's own detail is dropped. */
  const FetchFailedMessage: string := "Failed to fetch Pokémon"

  /** How the awaited `fetchPokemons()` settles: it resolves with data or it throws. */
  datatype FetchOutcome = Fetched(data: seq<Pokemon>) | FetchFailed

  /** What one render returns. */
  datatype View =
    | LoadingIndicator
    | ErrorText(message: string)
      // the header, the search bar, the type filter offering `types`, and one card per record
    | Cards(types: seq<string>, shown: seq<Pokemon>)
      // the same header and controls, with the empty-results placeholder
    | NoResults(types: seq<string>)

  /**
   The component's render: the loading indicator while loading, else the error
   text when the error is non-empty (truthy), else the explorer with the
   filtered cards or, when none pass, the empty-results placeholder.
   */
  function Render(pokemons: seq<Pokemon>, searchTerm: string, selectedType: string,
                  loading: bool, error: string): (v: View)
    ensures v.ErrorText? ==> !loading && v.message == error && error != ""
    ensures v.Cards? || v.NoResults? ==> !loading && error == "" && v.types == AllTypes(pokemons)
    ensures v.Cards? ==> v.shown != [] && v.shown == Filter(pokemons, searchTerm, selectedType)
    ensures pokemons == [] && !loading && error == "" ==> v == NoResults([])
  {
    if loading then LoadingIndicator
    else if error != "" then ErrorText(error)
    else
      var shown := Filter(pokemons, searchTerm, selectedType);
      if |shown| > 0 then Cards(AllTypes(pokemons), shown) else NoResults(AllTypes(pokemons))
  }

  /**
   Which branch a render takes: loading wins over an error, an error wins over
   the results, and the placeholder appears exactly when no record passes.
   */
  lemma RenderPriority(pokemons: seq<Pokemon>, searchTerm: string, selectedType: string,
                       loading: bool, error: string)
    ensures loading ==> Render(pokemons, searchTerm, selectedType, loading, error) == LoadingIndicator
    ensures !loading && error != "" ==> Render(pokemons, searchTerm, selectedType, loading, error) == ErrorText(error)
    ensures !loading && error == "" ==>
              (Render(pokemons, searchTerm, selectedType, loading, error).NoResults? <==>
               forall p :: p in pokemons ==> !Keep(p, searchTerm, selectedType))
    ensures !loading && error == "" ==>
              (Render(pokemons, searchTerm, selectedType, loading, error).Cards? <==>
               exists p :: p in pokemons && Keep(p, searchTerm, selectedType))
  {
    var shown := Filter(pokemons, searchTerm, selectedType);
    forall p
      ensures p in shown <==> p in pokemons && Keep(p, searchTerm, selectedType)
    {
      FilterMembership(pokemons, searchTerm, selectedType, p);
    }
    if shown != [] {
      assert shown[0] in shown;
    }
  }

  /** The component's state; each `useState` setter becomes a field assignment. */
  class App {
    var pokemons: seq<Pokemon>
    var searchTerm: string
    var selectedType: string
    var loading: bool
    var error: string

    /**
     The states the lifecycle can be in: still loading with nothing stored,
     loaded, or failed with the fixed message and no records.
     */
    ghost predicate Valid()
      reads this
      ensures Valid() ==> error == "" || error == FetchFailedMessage
      ensures Valid() && loading ==> pokemons == []
    {
      (loading ==> pokemons == [] && error == "") &&
      (error != "" ==> error == FetchFailedMessage && pokemons == [])
    }

    /** The initial render: no records, empty filters, loading, no error. */
    constructor ()
      ensures Valid()
      ensures pokemons == [] && searchTerm == "" && selectedType == ""
      ensures loading && error == ""
    {
      pokemons := [];
      searchTerm := "";
      selectedType := "";
      loading := true;
      error := "";
    }

    /** What the component renders in its current state. */
    function View(): (v: View)
      reads this
      ensures loading ==> v == LoadingIndicator
      ensures Valid() && !loading && v.ErrorText? ==> v.message == FetchFailedMessage
      ensures v.Cards? ==> v.shown != [] && v.types == AllTypes(pokemons)
    ensures v.Cards? ==> v.shown == Filter(pokemons, searchTerm, selectedType)
    {
      Render(pokemons, searchTerm, selectedType, loading, error)
    }

    /**
     `getData`: store the data on success, set the fixed message on failure,
     and clear `loading` in `finally`, whichever way the fetch settled.
     */
    method GetData(outcome: FetchOutcome)
      modifies this
      ensures !loading
      ensures outcome.Fetched? ==> pokemons == outcome.data && error == old(error)
      ensures outcome.FetchFailed? ==> pokemons == old(pokemons) && error == FetchFailedMessage
      ensures searchTerm == old(searchTerm) && selectedType == old(selectedType)
      ensures old(Valid()) && old(loading) ==> Valid()
    {
      match outcome {
        case Fetched(data) =>
          pokemons := data;
        case FetchFailed =>
          error := FetchFailedMessage;
      }
      loading := false;
    }

    /** `setSearchTerm`, called by the search bar as the user types. */
    method SetSearchTerm(term: string)
      modifies this
      ensures searchTerm == term
      ensures pokemons == old(pokemons) && selectedType == old(selectedType)
      ensures loading == old(loading) && error == old(error)
      ensures old(Valid()) ==> Valid()
    {
      searchTerm := term;
    }

    /** `setSelectedType`, called by the type filter; "" selects every type. */
    method SetSelectedType(selected: string)
      modifies this
      ensures selectedType == selected
      ensures pokemons == old(pokemons) && searchTerm == old(searchTerm)
      ensures loading == old(loading) && error == old(error)
      ensures old(Valid()) ==> Valid()
    {
      selectedType := selected;
    }
  }

  /**
   One mount of the component. Until the fetch settles only the loading
   indicator is rendered (so the search bar and the type filter are not on
   screen). A failed fetch then shows exactly the fixed message, whatever the
   user does; a successful one shows the filtered records once the user has
   typed `searchTerm` and picked `selectedType`, or the placeholder when none pass.
   */
  method MountAndLoad(outcome: FetchOutcome, searchTerm: string, selectedType: string)
    returns (before: View, after: View)
    ensures before == LoadingIndicator
    ensures outcome.FetchFailed? ==> after == ErrorText(FetchFailedMessage)
    ensures outcome.Fetched? && Filter(outcome.data, searchTerm, selectedType) == [] ==>
              after == NoResults(AllTypes(outcome.data))
    ensures outcome.Fetched? && Filter(outcome.data, searchTerm, selectedType) != [] ==>
              after == Cards(AllTypes(outcome.data), Filter(outcome.data, searchTerm, selectedType))
  {
    var app := new App();
    before := app.View();
    app.GetData(outcome);
    app.SetSearchTerm(searchTerm);
    app.SetSelectedType(selectedType);
    after := app.View();
  }
}
