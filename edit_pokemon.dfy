/** The edit screen, reached as `/edit/new` (create mode) or `/edit/<id>` (edit mode): three
    text inputs pre-filled from the stored record in edit mode, an error line, and a submit
    that writes the whole list back and returns to the list screen. */
module EditPokemon {
  import opened Wrappers
  import opened Pokemon
  import opened Storage
  import opened Mutations
  import Text

  /** The error shown when a required input is empty. */
  const RequiredMessage: string := "Nombre y tipo son requeridos"

  class Form {
    /** The `:id` route parameter. */
    const routeId: string
    var name: string
    var typeName: string
    /** Pre-filling copies the stored record's `sprite` as is, which may be missing or null. */
    var sprite: Field<string>
    var error: string

    constructor (routeId: string)
      ensures this.routeId == routeId
      ensures name == "" && typeName == "" && sprite == Present("") && error == ""
    {
      this.routeId := routeId;
      name, typeName, sprite, error := "", "", Present(""), "";
    }

    /** `isNew`: create mode exactly for the route id `"new"`. */
    predicate IsNew() {
      routeId == "new"
    }

    /** `Number(id)`: the id the edit mode looks for (`None` is `NaN`); a route written from
        an id reads back as that id. */
    function Target(): (t: Option<int>)
      ensures forall id :: Text.WrittenAs(routeId, id) ==> t == Some(id)
    {
      Text.NumberOfReadsEveryIntToString();
      Text.NumberOf(routeId)
    }

    /** The pre-fill effect: in edit mode, copy name, first nested type name and sprite from
        the first stored record with the route's id; otherwise leave the inputs alone. */
    method Prefill(store: Store)
      modifies this`name, this`typeName, this`sprite
      ensures var found := FindById(store.pokemons.GetOr([]), Target());
              if !IsNew() && found.Some? then
                name == found.value.name && typeName == PrefillType(found.value.types) &&
                sprite == found.value.sprite
              else
                name == old(name) && typeName == old(typeName) && sprite == old(sprite)
    {
      if !IsNew() {
        var pokemons := store.pokemons.GetOr([]);
        var pokemon := FindById(pokemons, Target());
        if pokemon.Some? {
          name := pokemon.value.name;
          typeName := PrefillType(pokemon.value.types);
          sprite := pokemon.value.sprite;
        }
      }
    }

    /** `handleSubmit`: returns whether it navigated back to the list. Without a name or a
        type it sets the error and writes nothing. Otherwise it writes the list read from the
        snapshot (absent is empty) with one record appended in create mode, or with every
        record carrying the route's id updated in edit mode; the update is written even when
        no record has that id. The create id is the next free id (see the findings). */
    method HandleSubmit(store: Store) returns (done: bool)
      modifies this`error, store
      ensures name == "" || typeName == "" ==>
                !done && error == RequiredMessage && store.pokemons == old(store.pokemons)
      ensures name != "" && typeName != "" ==>
                var list := old(store.pokemons).GetOr([]);
                done && error == old(error) &&
                store.pokemons == Some(if IsNew() then list + [CreatedRecord(NextId(list), name, typeName, sprite)]
                                       else Updated(list, Target(), name, typeName, sprite))
      ensures name != "" && typeName != "" ==>
                var list := old(store.pokemons).GetOr([]);
                store.pokemons == Some(Apply(list, if IsNew() then Create(name, typeName, sprite)
                                                   else Update(Target(), name, typeName, sprite)))
    {
      if name == "" || typeName == "" {
        error := RequiredMessage;
        return false;
      }
      var pokemons := store.pokemons.GetOr([]);
      var updatedList;
      if IsNew() {
        var newId := NextId(pokemons);
        updatedList := pokemons + [CreatedRecord(newId, name, typeName, sprite)];
      } else {
        updatedList := Updated(pokemons, Target(), name, typeName, sprite);
      }
      store.pokemons := Some(updatedList);
      done := true;
    }
  }

  /** Editing `/edit/<id>` for a stored id changes that record's name, type and sprite and
      nothing else in the list; its id and other fields stay. */
  lemma EditRouteUpdatesThatRecord(list: seq<Record>, id: int, name: string, typeName: string,
                                   sprite: Field<string>, k: int)
    requires UniqueIds(list) && 0 <= k < |list| && list[k].id == id
    ensures var r := Updated(list, Text.NumberOf(Text.IntToString(id)), name, typeName, sprite);
            |r| == |list| && r[k] == list[k].(name := name, types := [Nested(typeName)], sprite := sprite) &&
            forall j :: 0 <= j < |list| && j != k ==> r[j] == list[j]
  {
    Text.NumberOfIntToString(id);
  }

  /** The create route names no id: `Number("new")` is `NaN`, so create mode never targets a
      stored record. */
  lemma NewRouteNamesNoId()
    ensures Text.NumberOf("new") == None
  {
    Text.TrimUnpadded("new");
    assert !Text.IsDigit("new"[0]);
  }

  /** The route id of a record never reads as `"new"`, so a record's edit link never opens
      the create mode. */
  lemma RecordRouteIsNotNew(id: int)
    ensures Text.IntToString(id) != "new"
  {
    var s := Text.IntToString(id);
    if id < 0 {
      assert s[0] == '-';
    } else {
      assert s == Text.Decimal(id) && Text.IsDigit(s[0]);
    }
    assert "new"[0] == 'n';
  }
}
