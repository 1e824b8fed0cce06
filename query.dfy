/** The view both list screens derive from their state on every render: the filtered list,
    the current page of it, the page count, the type vocabulary offered to the filter bar,
    and the rules for changing the type filter, the page and for the random pick. */
module Query {
  import opened Wrappers
  import opened Seqs
  import opened Pokemon
  import Text

  const ItemsPerPage: nat := 20

  // ---------------------------------------------------------------- filter

  /** `!filteredType || pokemon.types?.some(...)`: no filter (`null` or `""`), or some type
      entry named exactly like the filter. */
  predicate MatchesType(r: Record, filteredType: Option<string>): (b: bool)
    ensures filteredType == None || filteredType == Some("") ==> b
    ensures filteredType.Some? && filteredType.value != "" ==>
              (b <==>
               exists i :: 0 <= i < |r.types| && TypeName(r.types[i]) == filteredType)
  {
    filteredType == None || filteredType == Some("") || HasType(r, filteredType.value)
  }

  /** `pokemon.name?.toLowerCase().includes(search.toLowerCase())`. */
  predicate MatchesSearch(r: Record, search: string): (b: bool)
    ensures search == "" ==> b
    ensures b <==> Text.Occurs(Text.Lower(r.name), Text.Lower(search))
  {
    Text.ContainsIffOccurs(Text.Lower(r.name), Text.Lower(search));
    Text.Contains(Text.Lower(r.name), Text.Lower(search))
  }

  predicate Shown(r: Record, filteredType: Option<string>, search: string) {
    MatchesType(r, filteredType) && MatchesSearch(r, search)
  }

  /** `filteredPokemon`: the records both filters let through, in list order. */
  function Filtered(records: seq<Record>, filteredType: Option<string>, search: string): (r: seq<Record>)
    ensures forall x :: x in r <==> x in records && Shown(x, filteredType, search)
    ensures forall x :: multiset(r)[x] == if Shown(x, filteredType, search) then multiset(records)[x] else 0
    ensures IsSubsequence(r, records)
  {
    Select(records, x => Shown(x, filteredType, search))
  }

  /** With no type filter and an empty search every record is shown, in order. */
  lemma {:induction false} NoFilterShowsAll(records: seq<Record>, filteredType: Option<string>)
    requires filteredType == None || filteredType == Some("")
    ensures Filtered(records, filteredType, "") == records
  {
    var r := Filtered(records, filteredType, "");
    assert forall x :: multiset(r)[x] == multiset(records)[x];
    assert multiset(r) == multiset(records);
    SubsequenceOfSameSize(r, records);
  }

  /** A subsequence as long as the whole sequence is the whole sequence. */
  lemma {:induction false} SubsequenceOfSameSize<T>(a: seq<T>, b: seq<T>)
    requires IsSubsequence(a, b) && |a| == |b|
    ensures a == b
    decreases |b|
  {
    if a != [] {
      if a[0] == b[0] {
        SubsequenceOfSameSize(a[1..], b[1..]);
        assert a == [a[0]] + a[1..] && b == [b[0]] + b[1..];
      } else {
        SubsequenceLength(a, b[1..]);
      }
    }
  }

  lemma {:induction false} SubsequenceLength<T>(a: seq<T>, b: seq<T>)
    requires IsSubsequence(a, b)
    ensures |a| <= |b|
    decreases |b|
  {
    if a != [] {
      if a[0] == b[0] { SubsequenceLength(a[1..], b[1..]); } else { SubsequenceLength(a, b[1..]); }
    }
  }

  // ---------------------------------------------------------------- paging

  /** `Math.ceil(n / ITEMS_PER_PAGE)`. */
  function PageCount(n: nat): (c: nat)
    ensures n <= c * ItemsPerPage
    ensures c == 0 || (c - 1) * ItemsPerPage < n
    ensures c == 0 <==> n == 0
  {
    (n + ItemsPerPage - 1) / ItemsPerPage
  }

  /** `list.slice(page * ITEMS_PER_PAGE, (page + 1) * ITEMS_PER_PAGE)`; `slice` clips both
      ends to the list. */
  function Page<T>(s: seq<T>, page: nat): (r: seq<T>)
    ensures |r| <= ItemsPerPage
    ensures r == [] <==> page >= PageCount(|s|)
    ensures page + 1 < PageCount(|s|) ==> |r| == ItemsPerPage
    ensures forall k :: 0 <= k < |r| ==> page * ItemsPerPage + k < |s| && r[k] == s[page * ItemsPerPage + k]
  {
    var start := if page * ItemsPerPage <= |s| then page * ItemsPerPage else |s|;
    var end := if (page + 1) * ItemsPerPage <= |s| then (page + 1) * ItemsPerPage else |s|;
    s[start..end]
  }

  /** Pages `0 .. k - 1` laid end to end. */
  function Pages<T>(s: seq<T>, k: nat): seq<T> {
    if k == 0 then [] else Pages(s, k - 1) + Page(s, k - 1)
  }

  lemma {:induction false} PagesArePrefix<T>(s: seq<T>, k: nat)
    ensures Pages(s, k) == s[..if k * ItemsPerPage <= |s| then k * ItemsPerPage else |s|]
  {
    if k > 0 {
      PagesArePrefix(s, k - 1);
      var lo := if (k - 1) * ItemsPerPage <= |s| then (k - 1) * ItemsPerPage else |s|;
      var hi := if k * ItemsPerPage <= |s| then k * ItemsPerPage else |s|;
      assert (k - 1 + 1) * ItemsPerPage == k * ItemsPerPage;
      assert Page(s, k - 1) == s[lo..hi];
      assert s[..lo] + s[lo..hi] == s[..hi];
    }
  }

  /** Concatenating every page gives back exactly the filtered list: nothing lost,
      nothing repeated, nothing reordered. */
  lemma PagesCoverList<T>(s: seq<T>)
    ensures Pages(s, PageCount(|s|)) == s
  {
    PagesArePrefix(s, PageCount(|s|));
  }

  /** `handlePageChange`: move to the requested page only when it exists. */
  function ChangePage(current: nat, requested: int, pageCount: nat): (p: nat)
    ensures 0 <= requested < pageCount ==> p == requested
    ensures !(0 <= requested < pageCount) ==> p == current
    ensures current < pageCount ==> p < pageCount
    ensures pageCount == 0 ==> p == current
  {
    if 0 <= requested < pageCount then requested else current
  }

  /** `handleTypeFilter`: clicking the active type clears the filter, any other selects it. */
  function ToggleFilter(current: Option<string>, t: string): (r: Option<string>)
    ensures r == None <==> current == Some(t)
    ensures r != None ==> r == Some(t)
  {
    if current == Some(t) then None else Some(t)
  }

  // ---------------------------------------------------------------- vocabulary

  /** `pokemonList.flatMap(p => p.types?.map(name of t))`. */
  function TypeNames(records: seq<Record>): (r: seq<Option<string>>)
    ensures forall x :: Some(x) in r <==> exists k :: 0 <= k < |records| && HasType(records[k], x)
    ensures |records| == 1 ==> r == MapSeq(records[0].types, TypeName)
  {
    if records == [] then []
    else
      var first := MapSeq(records[0].types, TypeName);
      var rest := TypeNames(records[1..]);
      assert forall x :: Some(x) in first <==> HasType(records[0], x) by {
        forall x ensures Some(x) in first <==> HasType(records[0], x) {
          if HasType(records[0], x) {
            var i :| 0 <= i < |records[0].types| && TypeName(records[0].types[i]) == Some(x);
            assert first[i] == Some(x);
          }
        }
      }
      assert forall k :: 1 <= k < |records| ==> records[k] == records[1..][k - 1];
      first + rest
  }

  /** The names of a list are the names of its first part followed by those of the rest:
      with the one-record case above, the record-by-record, entry-by-entry order of `flatMap`. */
  lemma {:induction false} TypeNamesConcat(a: seq<Record>, b: seq<Record>)
    ensures TypeNames(a + b) == TypeNames(a) + TypeNames(b)
    decreases |a|
  {
    if a != [] {
      TypeNamesConcat(a[1..], b);
      assert (a + b)[1..] == a[1..] + b;
      assert (a + b)[0] == a[0];
    } else {
      assert a + b == b;
    }
  }

  /** `.filter(Boolean)` on the names: drops missing and empty names. */
  function Truthy(names: seq<Option<string>>): (r: seq<string>)
    ensures forall x :: x in r <==> Some(x) in names && x != ""
    decreases |names|
  {
    if names == [] then []
    else
      var n := |names| - 1;
      assert names == names[..n] + [names[n]];
      var rest := Truthy(names[..n]);
      match names[n]
      case Some(x) => if x != "" then rest + [x] else rest
      case None => rest
  }

  /** `allTypes`: the distinct non-empty type names of ALL records (not only the filtered
      ones), in order of first appearance. */
  function Vocabulary(records: seq<Record>): (v: seq<string>)
    ensures forall x :: x in v <==> x != "" && exists k :: 0 <= k < |records| && HasType(records[k], x)
    ensures NoDuplicates(v)
    ensures NamesInFirstAppearanceOrder(v, TypeNames(records))
  {
    var names := TypeNames(records);
    DistinctInFirstAppearanceOrder(names);
    TruthyKeepsOrder(Distinct(names), names);
    Truthy(Distinct(names))
  }

  /** Each of `v` names an element of `names`, ordered by its first occurrence there. */
  predicate NamesInFirstAppearanceOrder(v: seq<string>, names: seq<Option<string>>) {
    (forall x :: x in v ==> Some(x) in names) &&
    forall i, j :: 0 <= i < j < |v| ==> FirstIndex(names, Some(v[i])) < FirstIndex(names, Some(v[j]))
  }

  lemma {:induction false} TruthyKeepsOrder(s: seq<Option<string>>, names: seq<Option<string>>)
    requires InFirstAppearanceOrder(s, names)
    ensures NamesInFirstAppearanceOrder(Truthy(s), names)
    decreases |s|
  {
    if s != [] {
      var n := |s| - 1;
      var p := s[..n];
      assert InFirstAppearanceOrder(p, names) by {
        forall i, j | 0 <= i < j < |p| ensures FirstIndex(names, p[i]) < FirstIndex(names, p[j]) {
          assert p[i] == s[i] && p[j] == s[j];
        }
      }
      TruthyKeepsOrder(p, names);
      var rest := Truthy(p);
      var v := Truthy(s);
      forall i, j | 0 <= i < j < |v| ensures FirstIndex(names, Some(v[i])) < FirstIndex(names, Some(v[j])) {
        if j >= |rest| {
          assert v[i] == rest[i] && v[j] == s[n].value;
          assert Some(v[i]) in p;
          var k :| 0 <= k < |p| && p[k] == Some(v[i]);
          assert s[k] == p[k];
        } else {
          assert v[i] == rest[i] && v[j] == rest[j];
        }
      }
    }
  }

  // ---------------------------------------------------------------- random pick

  /** `Math.floor(Math.random() * n)` for a draw `u` in [0, 1). */
  function RandomIndex(u: real, n: nat): (k: int)
    requires 0.0 <= u < 1.0
    ensures n > 0 ==> 0 <= k < n
    ensures n == 0 ==> k == 0
  {
    var x := u * n as real;
    assert x < n as real || n == 0 by {
      if n > 0 { assert u * n as real < 1.0 * n as real; }
    }
    x.Floor
  }

  /** `getRandomPokemon`: the record at the drawn index of the filtered list; `None` (no
      navigation) exactly when the filtered list is empty. */
  function RandomPick(filtered: seq<Record>, u: real): (r: Option<Record>)
    requires 0.0 <= u < 1.0
    ensures r.Some? <==> |filtered| > 0
    ensures r.Some? ==> r.value in filtered
  {
    var k := RandomIndex(u, |filtered|);
    if 0 <= k < |filtered| then Some(filtered[k]) else None
  }
}
