/** The list operations behind the four mutations: rename and delete from the list screen,
    create from the add screen, create and update from the edit screen. Each takes the whole
    record list and returns the whole new list, which the screens then write back in full. */
module Mutations {
  import opened Wrappers
  import opened Seqs
  import opened Pokemon
  import Text
  import Query

  // ---------------------------------------------------------------- rename and delete

  /** `pokemonList.map(p => p.id === id ? {...p, name: newName} : p)`. */
  function Renamed(records: seq<Record>, id: int, newName: string): (r: seq<Record>)
    ensures |r| == |records|
    ensures forall i :: 0 <= i < |r| ==> r[i].(name := records[i].name) == records[i]
    ensures forall i :: 0 <= i < |r| ==> r[i].name == if records[i].id == id then newName else records[i].name
  {
    MapSeq(records, (p: Record) => if p.id == id then p.(name := newName) else p)
  }

  /** `pokemonList.filter(p => p.id !== id)`. */
  function Deleted(records: seq<Record>, id: int): (r: seq<Record>)
    ensures forall x :: x in r <==> x in records && x.id != id
    ensures forall x :: multiset(r)[x] == if x.id != id then multiset(records)[x] else 0
    ensures IsSubsequence(r, records)
  {
    Select(records, (p: Record) => p.id != id)
  }

  /** Renaming keeps every id where it was, so unique ids stay unique. */
  lemma RenamedKeepsUniqueIds(records: seq<Record>, id: int, newName: string)
    requires UniqueIds(records)
    ensures UniqueIds(Renamed(records, id, newName))
  {
    var r := Renamed(records, id, newName);
    assert forall i :: 0 <= i < |r| ==> r[i].id == records[i].id;
  }

  lemma DeletedKeepsUniqueIds(records: seq<Record>, id: int)
    requires UniqueIds(records)
    ensures UniqueIds(Deleted(records, id))
  {
    SubsequenceKeepsUniqueIds(Deleted(records, id), records);
  }

  /** Deleting a present id from a list with unique ids removes exactly one record. */
  lemma DeleteRemovesOne(records: seq<Record>, id: int)
    requires UniqueIds(records) && HasId(records, id)
    ensures |Deleted(records, id)| == |records| - 1
  {
    var k :| 0 <= k < |records| && records[k].id == id;
    SelectDropsOne(records, (p: Record) => p.id != id, k);
  }

  /** With 21 records on pages of 20, deleting one of them takes the page count from 2 to 1. */
  lemma DeleteRecount(records: seq<Record>, id: int)
    requires |records| == 21 && UniqueIds(records) && HasId(records, id)
    ensures Query.PageCount(|records|) == 2 && Query.PageCount(|Deleted(records, id)|) == 1
  {
    DeleteRemovesOne(records, id);
  }

  // ---------------------------------------------------------------- ids

  function Max(a: int, b: int): int {
    if a < b then b else a
  }

  /** `Math.max(...pokemons.map(p => p.id), 0)`. */
  function MaxId(records: seq<Record>): (m: int)
    ensures m >= 0
    ensures forall i :: 0 <= i < |records| ==> records[i].id <= m
    ensures m == 0 || HasId(records, m)
  {
    if records == [] then 0
    else
      var rest := MaxId(records[1..]);
      assert forall i :: 1 <= i < |records| ==> records[i] == records[1..][i - 1];
      assert rest > 0 ==> HasId(records, rest) by {
        if rest > 0 {
          var j :| 0 <= j < |records[1..]| && records[1..][j].id == rest;
          assert records[j + 1].id == rest;
        }
      }
      Max(records[0].id, rest)
  }

  /** The add screen's new id, `Math.max(...ids, 0) + 1`: one more than the largest id, or 1
      for an empty list. */
  function NextId(records: seq<Record>): (id: int)
    ensures id >= 1
    ensures forall i :: 0 <= i < |records| ==> records[i].id < id
    ensures id == 1 || HasId(records, id - 1)
  {
    MaxId(records) + 1
  }

  /** Ids 3, 7 and 9 give 10. */
  lemma NextIdExample(a: Record, b: Record, c: Record)
    requires a.id == 3 && b.id == 7 && c.id == 9
    ensures NextId([a, b, c]) == 10
  {
    assert [a, b, c][1..] == [b, c] && [b, c][1..] == [c] && [c][1..] == [];
    assert MaxId([c]) == 9;
    assert MaxId([b, c]) == 9;
  }

  /** A record carrying the next id can be appended without creating a duplicate id. */
  lemma AppendNextIdKeepsUniqueIds(records: seq<Record>, rec: Record)
    requires UniqueIds(records) && rec.id == NextId(records)
    ensures UniqueIds(records + [rec])
  {
  }

  /** The edit screen's new id AS WRITTEN, `Math.max(...ids) + 1` with no 0 default:
      `None` is `-Infinity` (what `Math.max()` of nothing gives), which the snapshot then
      stores as `null`. */
  function EditNewIdAsWritten(records: seq<Record>): (r: Option<int>)
    ensures r.None? <==> records == []
    ensures r.Some? ==> (forall i :: 0 <= i < |records| ==> records[i].id < r.value) && HasId(records, r.value - 1)
  {
    if records == [] then None
    else
      var rest := EditNewIdAsWritten(records[1..]);
      assert forall i :: 1 <= i < |records| ==> records[i] == records[1..][i - 1];
      match rest
      case None => Some(records[0].id + 1)
      case Some(n) =>
        var j :| 0 <= j < |records[1..]| && records[1..][j].id == n - 1;
        assert records[j + 1].id == n - 1;
        Some(Max(records[0].id + 1, n))
  }

  /** On an empty list the as-written edit screen produces no integer id at all. */
  lemma EditNewIdEmptyList()
    ensures EditNewIdAsWritten([]).None?
    ensures NextId([]) == 1
  {
  }

  /** Wherever the as-written formula does produce an integer (a non-empty list of
      non-negative ids), it agrees with the add screen's formula. */
  lemma EditNewIdAgreesOnNonEmpty(records: seq<Record>)
    requires records != []
    requires forall i :: 0 <= i < |records| ==> records[i].id >= 0
    ensures EditNewIdAsWritten(records) == Some(NextId(records))
  {
    LeastStrictBound(records, EditNewIdAsWritten(records).value, NextId(records));
  }

  /** Two strict upper bounds of the ids that are each either one more than an id, or 1,
      are the same number. */
  lemma LeastStrictBound(records: seq<Record>, e: int, n: int)
    requires forall i :: 0 <= i < |records| ==> 0 <= records[i].id < e && records[i].id < n
    requires HasId(records, e - 1)
    requires n == 1 || HasId(records, n - 1)
    ensures e == n
  {
    var j :| 0 <= j < |records| && records[j].id == e - 1;
    if n != 1 {
      var k :| 0 <= k < |records| && records[k].id == n - 1;
    }
  }

  // ---------------------------------------------------------------- add screen

  /** `abilities ? abilities.split(',').map(a => ({ability: {name: a.trim()}})) : []`. */
  function ParseAbilities(text: string): (r: seq<Ability>)
    ensures text == "" ==> r == []
    ensures text != "" ==> |r| == |Text.Split(text)|
    ensures text != "" ==> forall i :: 0 <= i < |r| ==> r[i] == Ability(Text.Trim(Text.Split(text)[i]))
  {
    if text == "" then [] else MapSeq(Text.Split(text), (part: string) => Ability(Text.Trim(part)))
  }

  /** Names written as a comma-separated list come back as the same abilities, in order. */
  lemma ParseAbilitiesRoundTrip(names: seq<string>)
    requires names != [] && names != [""]
    requires forall n :: n in names ==> ',' !in n && Text.Unpadded(n)
    ensures ParseAbilities(Text.Join(names)) == MapSeq(names, (n: string) => Ability(n))
  {
    var text := Text.Join(names);
    Text.JoinEmpty(names);
    Text.SplitJoin(names);
    var r := ParseAbilities(text);
    var q := MapSeq(names, (n: string) => Ability(n));
    assert |r| == |q|;
    forall i | 0 <= i < |names| ensures r[i] == q[i] {
      assert names[i] in names;
      Text.TrimUnpadded(names[i]);
    }
  }

  /** `parseInt(text, 10)` as stored: `NaN` becomes `null` in the snapshot. */
  function ParseStat(text: string): (f: Field<int>)
    ensures f != Absent
    ensures forall i: int :: text == Text.IntToString(i) ==> f == Present(i)
  {
    forall i: int | text == Text.IntToString(i) ensures Text.ParseInt(text) == Some(i) {
      Text.ParseIntReadsIntToString(i, "");
      assert Text.IntToString(i) + "" == Text.IntToString(i);
    }
    match Text.ParseInt(text)
    case None => Null
    case Some(n) => Present(n)
  }

  /** The record the add screen appends. */
  function AddedRecord(id: int, name: string, typeName: string, sprite: string,
                       abilities: string, height: string, weight: string): (r: Record)
    ensures r.id == id && r.name == name && r.types == [Bare(typeName)] && r.url == Absent
    ensures r.sprite == Present(if sprite == "" then SpriteUrl(id) else sprite)
    ensures r.abilities == Present(ParseAbilities(abilities))
    ensures r.height == ParseStat(height) && r.weight == ParseStat(weight)
  {
    Record(id, name, Absent, Present(if sprite == "" then SpriteUrl(id) else sprite),
           [Bare(typeName)], Present(ParseAbilities(abilities)), ParseStat(height), ParseStat(weight))
  }

  // ---------------------------------------------------------------- edit screen

  /** `sprite || default`: a missing, null or empty sprite falls back on the id's image. */
  function SpriteOrDefault(sprite: Field<string>, id: int): (s: string)
    ensures sprite == Present("") || !sprite.Present? ==> s == SpriteUrl(id)
    ensures sprite.Present? && sprite.value != "" ==> s == sprite.value
  {
    if sprite.Present? && sprite.value != "" then sprite.value else SpriteUrl(id)
  }

  /** The record the edit screen appends in create mode. */
  function CreatedRecord(id: int, name: string, typeName: string, sprite: Field<string>): (r: Record)
    ensures r.id == id && r.name == name && r.types == [Nested(typeName)]
    ensures r.sprite == Present(SpriteOrDefault(sprite, id))
    ensures r.url == Absent && r.abilities == Absent && r.height == Absent && r.weight == Absent
  {
    Record(id, name, Absent, Present(SpriteOrDefault(sprite, id)), [Nested(typeName)], Absent, Absent, Absent)
  }

  /** `pokemons.map(p => p.id === Number(id) ? {...p, name, types: [{type: {name: type}}], sprite} : p)`;
      `target` is `Number(id)`, `None` for `NaN`, which equals no id. */
  function Updated(records: seq<Record>, target: Option<int>, name: string, typeName: string,
                   sprite: Field<string>): (r: seq<Record>)
    ensures |r| == |records|
    ensures forall i :: 0 <= i < |r| ==> r[i].id == records[i].id
    ensures forall i :: 0 <= i < |r| && Some(records[i].id) == target ==>
              r[i] == records[i].(name := name, types := [Nested(typeName)], sprite := sprite)
    ensures forall i :: 0 <= i < |r| && Some(records[i].id) != target ==> r[i] == records[i]
  {
    MapSeq(records, (p: Record) =>
      if Some(p.id) == target then p.(name := name, types := [Nested(typeName)], sprite := sprite) else p)
  }

  /** Updating an id no record has changes nothing. */
  lemma UpdateOfUnknownIdIsIdentity(records: seq<Record>, target: Option<int>, name: string,
                                    typeName: string, sprite: Field<string>)
    requires forall i :: 0 <= i < |records| ==> Some(records[i].id) != target
    ensures Updated(records, target, name, typeName, sprite) == records
  {
  }

  lemma UpdatedKeepsUniqueIds(records: seq<Record>, target: Option<int>, name: string,
                              typeName: string, sprite: Field<string>)
    requires UniqueIds(records)
    ensures UniqueIds(Updated(records, target, name, typeName, sprite))
  {
  }

  /** `p` is the record at index `i`, has id `target`, and no earlier record has it. */
  predicate FirstAt(records: seq<Record>, target: Option<int>, p: Record, i: int) {
    0 <= i < |records| && records[i] == p && Some(p.id) == target &&
    forall j :: 0 <= j < i ==> Some(records[j].id) != target
  }

  predicate FirstWithId(records: seq<Record>, target: Option<int>, p: Record) {
    exists i :: 0 <= i < |records| && FirstAt(records, target, p, i)
  }

  /** `pokemons.find(p => p.id === Number(id))`: the first record with that id. */
  function FindById(records: seq<Record>, target: Option<int>): (r: Option<Record>)
    ensures r.None? <==> forall i :: 0 <= i < |records| ==> Some(records[i].id) != target
    ensures r.Some? ==> FirstWithId(records, target, r.value)
  {
    if records == [] then None
    else if Some(records[0].id) == target then
      assert FirstAt(records, target, records[0], 0);
      Some(records[0])
    else
      var rest := FindById(records[1..], target);
      assert forall i :: 1 <= i < |records| ==> records[i] == records[1..][i - 1];
      assert rest.Some? ==> FirstWithId(records, target, rest.value) by {
        if rest.Some? {
          var i :| 0 <= i < |records[1..]| && FirstAt(records[1..], target, rest.value, i);
          forall j | 0 <= j < i + 1 ensures Some(records[j].id) != target {
            if j > 0 { assert records[j] == records[1..][j - 1]; }
          }
          assert FirstAt(records, target, rest.value, i + 1);
        }
      }
      rest
  }

  /** `pokemon.types?.[0]?.type?.name || ""`: only a nested first entry pre-fills the form. */
  function PrefillType(types: seq<TypeEntry>): (t: string)
    ensures t != "" ==> types != [] && types[0] == Nested(t)
    ensures types == [] || !types[0].Nested? ==> t == ""
    ensures types != [] && types[0].Nested? ==> t == types[0].name
  {
    if types != [] && types[0].Nested? then types[0].name else ""
  }

  // ---------------------------------------------------------------- any sequence of mutations

  /** One of the list changes the screens make. */
  datatype Mutation =
    | Rename(id: int, newName: string)
    | Delete(id: int)
    | Add(name: string, typeName: string, spriteText: string, abilities: string, height: string, weight: string)
    | Create(name: string, typeName: string, sprite: Field<string>)
    | Update(target: Option<int>, name: string, typeName: string, sprite: Field<string>)

  function Apply(records: seq<Record>, m: Mutation): seq<Record> {
    match m
    case Rename(id, n) => Renamed(records, id, n)
    case Delete(id) => Deleted(records, id)
    case Add(n, t, s, a, h, w) => records + [AddedRecord(NextId(records), n, t, s, a, h, w)]
    case Create(n, t, s) => records + [CreatedRecord(NextId(records), n, t, s)]
    case Update(target, n, t, s) => Updated(records, target, n, t, s)
  }

  function ApplyAll(records: seq<Record>, ms: seq<Mutation>): seq<Record>
    decreases |ms|
  {
    if ms == [] then records else ApplyAll(Apply(records, ms[0]), ms[1..])
  }

  /** One create, update, rename or delete keeps ids unique. */
  lemma MutationKeepsUniqueIds(records: seq<Record>, m: Mutation)
    requires UniqueIds(records)
    ensures UniqueIds(Apply(records, m))
  {
    match m {
      case Rename(id, n) => RenamedKeepsUniqueIds(records, id, n);
      case Delete(id) => DeletedKeepsUniqueIds(records, id);
      case Add(n, t, s, a, h, w) => AppendNextIdKeepsUniqueIds(records, AddedRecord(NextId(records), n, t, s, a, h, w));
      case Create(n, t, s) => AppendNextIdKeepsUniqueIds(records, CreatedRecord(NextId(records), n, t, s));
      case Update(target, n, t, s) => UpdatedKeepsUniqueIds(records, target, n, t, s);
    }
  }

  /** After any sequence of creates, updates, renames and deletes no two records share an id. */
  lemma {:induction false} MutationsKeepUniqueIds(records: seq<Record>, ms: seq<Mutation>)
    requires UniqueIds(records)
    ensures UniqueIds(ApplyAll(records, ms))
    decreases |ms|
  {
    if ms != [] {
      MutationKeepsUniqueIds(records, ms[0]);
      MutationsKeepUniqueIds(Apply(records, ms[0]), ms[1..]);
    }
  }
}
