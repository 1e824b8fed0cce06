/** The records the catalogue holds: one object per Pokémon, as the screens write them into
    the persisted snapshot. The same array mixes three shapes (hydrated from the API, added by
    the add screen, created or updated by the edit screen), so every property that not all
    of them carry is a `Field`. */
module Pokemon {
  import opened Wrappers
  import opened Seqs
  import Text

  /** One entry of a record's `types` array: a bare name (add screen), the API's nested
      `{type: {name}}` (hydration and edit screen), or an entry without a name. */
  datatype TypeEntry = Bare(name: string) | Nested(name: string) | Unnamed

  /** An entry of a record's `abilities` array, `{ability: {name}}`. */
  datatype Ability = Ability(name: string)

  datatype Record = Record(
    id: int,
    name: string,
    url: Field<string>,
    sprite: Field<string>,
    types: seq<TypeEntry>,
    abilities: Field<seq<Ability>>,
    height: Field<int>,
    weight: Field<int>)

  /** `typeof t === "string" ? t : t?.type?.name`: the one place where the two shapes of a
      type entry are told apart. */
  function TypeName(t: TypeEntry): (r: Option<string>)
    ensures r.None? <==> t.Unnamed?
    ensures r.Some? ==> r.value == t.name
  {
    match t
    case Bare(n) => Some(n)
    case Nested(n) => Some(n)
    case Unnamed => None
  }

  /** Some type entry of `r` is named exactly `name` (case-sensitive). */
  predicate HasType(r: Record, name: string) {
    exists i :: 0 <= i < |r.types| && TypeName(r.types[i]) == Some(name)
  }

  predicate UniqueIds(records: seq<Record>) {
    forall i, j :: 0 <= i < j < |records| ==> records[i].id != records[j].id
  }

  predicate HasId(records: seq<Record>, id: int) {
    exists i :: 0 <= i < |records| && records[i].id == id
  }

  /** Keeping some records in their order cannot make two ids equal. */
  lemma {:induction false} SubsequenceKeepsUniqueIds(a: seq<Record>, b: seq<Record>)
    requires IsSubsequence(a, b) && UniqueIds(b)
    ensures UniqueIds(a)
    decreases |b|
  {
    if a != [] {
      assert b != [];
      if a[0] == b[0] {
        SubsequenceKeepsUniqueIds(a[1..], b[1..]);
        SubsequenceMembers(a[1..], b[1..]);
        forall i, j | 0 <= i < j < |a| ensures a[i].id != a[j].id {
          if i == 0 {
            assert a[j] == a[1..][j - 1];
            assert a[j] in b[1..];
            var k :| 0 <= k < |b[1..]| && b[1..][k] == a[j];
            assert b[k + 1] == a[j];
          } else {
            assert a[i] == a[1..][i - 1] && a[j] == a[1..][j - 1];
          }
        }
      } else {
        assert UniqueIds(b[1..]) by {
          forall i, j | 0 <= i < j < |b[1..]| ensures b[1..][i].id != b[1..][j].id {
            assert b[1..][i] == b[i + 1] && b[1..][j] == b[j + 1];
          }
        }
        SubsequenceKeepsUniqueIds(a, b[1..]);
      }
    }
  }

  /** The sprite address the screens fall back on: the API's image for that id. */
  function SpriteUrl(id: int): string {
    SpritePrefix + Text.IntToString(id) + ".png"
  }

  /** The fallback address names its id: the part between the API's prefix and `.png`
      reads back as the id. */
  lemma SpriteUrlNamesId(id: int)
    ensures exists name :: SpriteUrl(id) == SpritePrefix + name + ".png" && Text.NumberOf(name) == Some(id)
  {
    Text.NumberOfIntToString(id);
  }

  const SpritePrefix: string := "https://raw.githubusercontent.com/PokeAPI/sprites/master/sprites/pokemon/"
}
