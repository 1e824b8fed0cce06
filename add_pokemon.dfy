/** The add screen: six text inputs, an error line, and a submit that appends one record to
    the snapshot and navigates to its detail page. */
module AddPokemon {
  import opened Wrappers
  import opened Pokemon
  import opened Storage
  import opened Mutations

  /** The error shown when a required input is empty. */
  const RequiredMessage: string := "Nombre, tipo, altura y peso son requeridos"

  class Form {
    var name: string
    var typeName: string
    var sprite: string
    var abilities: string
    var height: string
    var weight: string
    var error: string

    constructor ()
      ensures name == "" && typeName == "" && sprite == "" && abilities == ""
      ensures height == "" && weight == "" && error == ""
    {
      name, typeName, sprite, abilities := "", "", "", "";
      height, weight, error := "", "", "";
    }

    /** Name, type, height and weight are required; sprite and abilities are optional. */
    predicate Complete(): (b: bool)
      reads this
      ensures b <==> "" !in [name, typeName, height, weight]
    {
      name != "" && typeName != "" && height != "" && weight != ""
    }

    /** `handleSubmit`: returns the id of the detail page it navigates to. An incomplete form
        sets the error and writes nothing. A complete one reads the list (an absent snapshot
        is the empty list), appends one record with a fresh id and writes the list back. */
    method HandleSubmit(store: Store) returns (target: Option<int>)
      modifies this`error, store
      ensures !Complete() ==> target == None && error == RequiredMessage && store.pokemons == old(store.pokemons)
      ensures Complete() ==>
                var list := old(store.pokemons).GetOr([]);
                var newId := NextId(list);
                target == Some(newId) && error == old(error) &&
                store.pokemons == Some(list + [AddedRecord(newId, name, typeName, sprite, abilities, height, weight)])
      ensures Complete() ==>
                store.pokemons == Some(Apply(old(store.pokemons).GetOr([]), Add(name, typeName, sprite, abilities, height, weight)))
    {
      if !Complete() {
        error := RequiredMessage;
        return None;
      }
      var pokemons := store.pokemons.GetOr([]);
      var newId := NextId(pokemons);
      var updatedList := pokemons + [AddedRecord(newId, name, typeName, sprite, abilities, height, weight)];
      store.pokemons := Some(updatedList);
      target := Some(newId);
    }
  }

  /** What a submit appends keeps the rest of the list as it was and gets an id no record
      has, so a list with unique ids keeps them. */
  lemma SubmitAppendsFreshRecord(list: seq<Record>, name: string, typeName: string, sprite: string,
                                 abilities: string, height: string, weight: string)
    requires UniqueIds(list)
    ensures var r := Apply(list, Add(name, typeName, sprite, abilities, height, weight));
            |r| == |list| + 1 && r[..|list|] == list && !HasId(list, r[|list|].id) && UniqueIds(r)
  {
    var rec := AddedRecord(NextId(list), name, typeName, sprite, abilities, height, weight);
    var r := Apply(list, Add(name, typeName, sprite, abilities, height, weight));
    assert r == list + [rec];
    AppendNextIdKeepsUniqueIds(list, rec);
    assert r[..|list|] == list;
    assert r[|list|].id == NextId(list);
    assert !HasId(list, NextId(list));
  }
}
