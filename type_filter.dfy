/** The filter bar: an "ALL" button, then one button per offered type name. It keeps no state;
    what it shows and sends follows from the names it is given and the current filter. */
module TypeFilter {
  import opened Wrappers
  import opened Seqs
  import opened Pokemon
  import Text
  import Query

  /** The keys of the bar's style table, in declaration order: the names it knows. */
  const ValidTypes: seq<string> := [
    "normal", "fire", "water", "electric", "grass", "ice", "fighting", "poison", "ground",
    "flying", "psychic", "bug", "rock", "ghost", "dragon", "dark", "steel", "fairy", "stellar"]

  /** A rendered button: its caption, the value its click sends to the list screen, and
      whether it is drawn as the active one. */
  datatype Button = Button(caption: string, sends: string, highlighted: bool)

  /** `types.filter(type => validTypes.includes(type.name))`: unknown names are dropped. */
  function Offered(types: seq<string>): (r: seq<string>)
    ensures forall x :: x in r <==> x in types && x in ValidTypes
    ensures forall x :: multiset(r)[x] == if x in ValidTypes then multiset(types)[x] else 0
    ensures IsSubsequence(r, types)
  {
    Select(types, (n: string) => n in ValidTypes)
  }

  /** "ALL" sends the empty name and is active only when there is no filter at all. */
  function AllButton(filteredType: Option<string>): (b: Button)
    ensures b.sends == ""
    ensures b.highlighted <==> filteredType == None
  {
    Button("ALL", "", filteredType == None)
  }

  /** A type button shows its name in capitals, sends the name, and is active when the
      filter is that name. */
  function TypeButton(name: string, filteredType: Option<string>): (b: Button)
    ensures b.sends == name && |b.caption| == |name|
    ensures b.highlighted <==> filteredType == Some(name)
  {
    Button(Text.Upper(name), name, filteredType == Some(name))
  }

  /** The whole bar, left to right. */
  function Buttons(types: seq<string>, filteredType: Option<string>): (r: seq<Button>)
    ensures |r| == 1 + |Offered(types)|
    ensures r[0] == AllButton(filteredType)
    ensures forall i :: 0 <= i < |Offered(types)| ==> r[i + 1] == TypeButton(Offered(types)[i], filteredType)
  {
    var offered := Offered(types);
    var rest := MapSeq(offered, (n: string) => TypeButton(n, filteredType));
    var r := [AllButton(filteredType)] + rest;
    assert |r| == 1 + |rest| && r[1..] == rest;
    r
  }

  /** The known names are nineteen distinct names, the last one `"stellar"`. */
  lemma ValidTypesFacts()
    ensures |ValidTypes| == 19 && NoDuplicates(ValidTypes)
    ensures "stellar" in ValidTypes && "fairy" in ValidTypes && "normal" in ValidTypes
  {
  }

  /** When the names given are distinct, at most one button is active; with a filter set,
      "ALL" is not it. */
  lemma AtMostOneHighlighted(types: seq<string>, filteredType: Option<string>)
    requires NoDuplicates(types)
    ensures var r := Buttons(types, filteredType);
            forall i, j :: 0 <= i < j < |r| && r[i].highlighted ==> !r[j].highlighted
  {
    var offered := Offered(types);
    SubsequenceNoDuplicates(offered, types);
    var r := Buttons(types, filteredType);
    forall k | 0 <= k < |r| && r[k].highlighted
      ensures if k == 0 then filteredType == None else filteredType == Some(offered[k - 1])
    {
      if k > 0 {
        assert r[k] == TypeButton(offered[k - 1], filteredType);
      }
    }
  }

  /** The bar the list screen draws from its whole list has at most one active button. */
  lemma ScreenBarHighlightsAtMostOne(records: seq<Record>, filteredType: Option<string>)
    ensures var r := Buttons(Query.Vocabulary(records), filteredType);
            forall i, j :: 0 <= i < j < |r| && r[i].highlighted ==> !r[j].highlighted
  {
    AtMostOneHighlighted(Query.Vocabulary(records), filteredType);
  }

  /** Clicking "ALL" twice from no filter: the first click sets the filter to `""`, which
      filters nothing but un-highlights "ALL"; the second click clears it again. */
  lemma AllClickCycle(r: Record, search: string)
    ensures Query.ToggleFilter(None, AllButton(None).sends) == Some("")
    ensures !AllButton(Some("")).highlighted
    ensures Query.ToggleFilter(Some(""), AllButton(Some("")).sends) == None
    ensures Query.Shown(r, Some(""), search) == Query.Shown(r, None, search)
  {
  }
}
