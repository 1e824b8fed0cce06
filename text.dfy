/** The JavaScript string operations the screens rely on: case folding for the search,
    `includes`, `trim`, `split(",")`, `parseInt(_, 10)`, `Number(_)` and number-to-string
    conversion. Strings are sequences of characters. */
module Text {
  import opened Wrappers

  /** WhiteSpace and LineTerminator code points, the set `trim` and `parseInt` skip. */
  predicate IsSpace(c: char) {
    c == '\t' || c == '\n' || c == '\U{B}' || c == '\U{C}' || c == '\r' || c == ' ' ||
    c == '\U{A0}' || c == '\U{1680}' || ('\U{2000}' <= c <= '\U{200A}') ||
    c == '\U{2028}' || c == '\U{2029}' || c == '\U{202F}' || c == '\U{205F}' ||
    c == '\U{3000}' || c == '\U{FEFF}'
  }

  predicate IsDigit(c: char) {
    '0' <= c <= '9'
  }

  predicate AllDigits(s: string) {
    forall i :: 0 <= i < |s| ==> IsDigit(s[i])
  }

  // ---------------------------------------------------------------- case folding

  function LowerChar(c: char): char {
    if 'A' <= c <= 'Z' then (c as int + 32) as char else c
  }

  function UpperChar(c: char): char {
    if 'a' <= c <= 'z' then (c as int - 32) as char else c
  }

  /** `s.toLowerCase()` on the ASCII letters. */
  function Lower(s: string): (r: string)
    ensures |r| == |s|
    ensures forall i :: 0 <= i < |s| ==> r[i] == LowerChar(s[i])
  {
    if s == [] then [] else [LowerChar(s[0])] + Lower(s[1..])
  }

  /** `s.toUpperCase()` on the ASCII letters. */
  function Upper(s: string): (r: string)
    ensures |r| == |s|
    ensures forall i :: 0 <= i < |s| ==> r[i] == UpperChar(s[i])
  {
    if s == [] then [] else [UpperChar(s[0])] + Upper(s[1..])
  }

  // ---------------------------------------------------------------- includes

  predicate StartsWith(s: string, prefix: string) {
    |prefix| <= |s| && s[..|prefix|] == prefix
  }

  /** `hay.includes(needle)`. */
  predicate Contains(hay: string, needle: string): (b: bool)
    ensures needle == [] ==> b
    ensures b ==> |needle| <= |hay|
    decreases |hay|
  {
    StartsWith(hay, needle) || (hay != [] && Contains(hay[1..], needle))
  }

  /** `needle` occurs in `hay` starting at offset `k`. */
  predicate OccursAt(hay: string, needle: string, k: int) {
    0 <= k <= |hay| - |needle| && hay[k..k + |needle|] == needle
  }

  /** `needle` occurs somewhere in `hay`. */
  predicate Occurs(hay: string, needle: string) {
    exists k :: 0 <= k <= |hay| - |needle| && OccursAt(hay, needle, k)
  }

  /** `includes` holds exactly when `needle` occurs at some offset of `hay`. */
  lemma {:induction false} ContainsIffOccurs(hay: string, needle: string)
    ensures Contains(hay, needle) <==> Occurs(hay, needle)
    decreases |hay|
  {
    if StartsWith(hay, needle) {
      assert OccursAt(hay, needle, 0);
    } else if hay != [] {
      var tail := hay[1..];
      ContainsIffOccurs(tail, needle);
      if Occurs(tail, needle) {
        var k :| 0 <= k <= |tail| - |needle| && OccursAt(tail, needle, k);
        assert hay[k + 1..k + 1 + |needle|] == tail[k..k + |needle|];
        assert OccursAt(hay, needle, k + 1);
      }
      if Occurs(hay, needle) {
        var k :| 0 <= k <= |hay| - |needle| && OccursAt(hay, needle, k);
        assert k != 0;
        assert tail[k - 1..k - 1 + |needle|] == hay[k..k + |needle|];
        assert OccursAt(tail, needle, k - 1);
      }
    }
  }

  // ---------------------------------------------------------------- trim

  /** The first index at or after `k` that does not hold white space (or `|s|`). */
  function SkipSpaces(s: string, k: nat): (n: nat)
    requires k <= |s|
    ensures k <= n <= |s|
    ensures forall i :: k <= i < n ==> IsSpace(s[i])
    ensures n == |s| || !IsSpace(s[n])
    decreases |s| - k
  {
    if k < |s| && IsSpace(s[k]) then SkipSpaces(s, k + 1) else k
  }

  /** Walking back from `k`, but not below `lo`, the index just past the last character that
      is not white space (or `lo`). */
  function SkipSpacesBack(s: string, lo: nat, k: nat): (n: nat)
    requires lo <= k <= |s|
    ensures lo <= n <= k
    ensures forall i :: n <= i < k ==> IsSpace(s[i])
    ensures n == lo || !IsSpace(s[n - 1])
    decreases k
  {
    if lo < k && IsSpace(s[k - 1]) then SkipSpacesBack(s, lo, k - 1) else k
  }

  /** `s.trimStart()`. */
  function TrimStart(s: string): (r: string)
    ensures |r| <= |s|
    ensures forall i :: 0 <= i < |s| - |r| ==> IsSpace(s[i])
    ensures forall i :: 0 <= i < |r| ==> r[i] == s[|s| - |r| + i]
    ensures r == [] || !IsSpace(r[0])
  {
    s[SkipSpaces(s, 0)..]
  }

  /** `r` sits at offset `a` of `s` with nothing but white space around it. */
  predicate PaddedAt(s: string, r: string, a: int) {
    0 <= a && a + |r| <= |s| &&
    (forall i :: 0 <= i < |r| ==> s[a + i] == r[i]) &&
    (forall i :: 0 <= i < a ==> IsSpace(s[i])) &&
    (forall i :: a + |r| <= i < |s| ==> IsSpace(s[i]))
  }

  /** No white space at either end. */
  predicate Unpadded(s: string) {
    s == [] || (!IsSpace(s[0]) && !IsSpace(s[|s| - 1]))
  }

  /** `s.trim()`: the middle of `s` once the white space on both ends is cut off. */
  function Trim(s: string): (r: string)
    ensures Unpadded(r)
    ensures exists a :: PaddedAt(s, r, a)
  {
    var a := SkipSpaces(s, 0);
    var b := SkipSpacesBack(s, a, |s|);
    var r := s[a..b];
    assert PaddedAt(s, r, a);
    r
  }

  /** A text splits in at most one way into white space, an unpadded middle and white space. */
  lemma PaddedUnique(x: string, r: string, a: int, q: string, b: int)
    requires PaddedAt(x, r, a) && PaddedAt(x, q, b) && Unpadded(r) && Unpadded(q)
    ensures r == q
  {
    assert r != [] ==> x[a] == r[0] && x[a + |r| - 1] == r[|r| - 1];
    assert q != [] ==> x[b] == q[0] && x[b + |q| - 1] == q[|q| - 1];
    if r != [] && q != [] {
      assert a == b;
      assert |r| == |q|;
      forall i | 0 <= i < |r| ensures r[i] == q[i] {
        assert x[a + i] == r[i] && x[b + i] == q[i];
      }
    }
  }

  /** White space, then `s`, then white space. */
  lemma ConcatPadded(lead: string, s: string, trail: string)
    requires forall i :: 0 <= i < |lead| ==> IsSpace(lead[i])
    requires forall i :: 0 <= i < |trail| ==> IsSpace(trail[i])
    ensures PaddedAt(lead + s + trail, s, |lead|)
  {
    var x := lead + s + trail;
    var m := |lead| + |s|;
    forall i | 0 <= i < |lead| ensures IsSpace(x[i]) {
      assert x[i] == lead[i];
    }
    forall i | m <= i < |x| ensures IsSpace(x[i]) {
      assert x[i] == trail[i - m];
    }
  }

  /** Trimming removes exactly the surrounding white space. */
  lemma TrimPadded(lead: string, s: string, trail: string)
    requires forall i :: 0 <= i < |lead| ==> IsSpace(lead[i])
    requires forall i :: 0 <= i < |trail| ==> IsSpace(trail[i])
    requires Unpadded(s)
    ensures Trim(lead + s + trail) == s
  {
    var x := lead + s + trail;
    var r := Trim(x);
    var a :| PaddedAt(x, r, a);
    ConcatPadded(lead, s, trail);
    PaddedUnique(x, r, a, s, |lead|);
  }

  lemma TrimUnpadded(s: string)
    requires Unpadded(s)
    ensures Trim(s) == s
  {
    TrimPadded("", s, "");
    assert "" + s + "" == s;
  }

  // ---------------------------------------------------------------- split and join

  /** `s.split(",")`: the pieces between the commas, empty pieces included. */
  function Split(s: string): (parts: seq<string>)
    ensures |parts| >= 1
    ensures forall p :: p in parts ==> ',' !in p
  {
    if s == [] then [""]
    else
      var rest := Split(s[1..]);
      if s[0] == ',' then [""] + rest
      else
        var first := [s[0]] + rest[0];
        assert rest[0] in rest;
        assert forall k :: 0 <= k < |first| ==> first[k] != ',' by {
          forall k | 0 <= k < |first| ensures first[k] != ',' {
            if k > 0 { assert first[k] == rest[0][k - 1]; }
          }
        }
        [first] + rest[1..]
  }

  /** `parts.join(",")`. */
  function Join(parts: seq<string>): string {
    if parts == [] then ""
    else if |parts| == 1 then parts[0]
    else parts[0] + "," + Join(parts[1..])
  }

  /** Only the single empty piece joins to the empty text. */
  lemma JoinEmpty(parts: seq<string>)
    requires parts != [] && parts != [""]
    ensures Join(parts) != ""
  {
    if |parts| == 1 {
      assert parts == [parts[0]];
    }
  }

  lemma JoinCons(a: string, t: seq<string>)
    ensures Join([a] + t) == if t == [] then a else a + "," + Join(t)
  {
    assert ([a] + t)[1..] == t;
  }

  lemma JoinExtendFirst(c: char, p: string, t: seq<string>)
    ensures Join([[c] + p] + t) == [c] + Join([p] + t)
  {
    JoinCons([c] + p, t);
    JoinCons(p, t);
    if t != [] {
      ConsAppend(c, p, "," + Join(t));
    }
  }

  lemma ConsAppend<T>(x: T, a: seq<T>, b: seq<T>)
    ensures ([x] + a) + b == [x] + (a + b)
  {
  }

  /** Splitting then joining gives back the text. */
  lemma {:induction false} JoinSplit(s: string)
    ensures Join(Split(s)) == s
  {
    if s != [] {
      var rest := Split(s[1..]);
      JoinSplit(s[1..]);
      if s[0] == ',' {
        JoinCons("", rest);
      } else {
        JoinExtendFirst(s[0], rest[0], rest[1..]);
        assert [rest[0]] + rest[1..] == rest;
      }
      assert s == [s[0]] + s[1..];
    }
  }

  lemma {:induction false} SplitWithoutComma(p: string, t: string)
    requires ',' !in p
    ensures Split(p + t) == [p + Split(t)[0]] + Split(t)[1..]
  {
    if p != [] {
      SplitWithoutComma(p[1..], t);
      assert p[0] in p;
      var x := p + t;
      assert x[0] == p[0] && x[0] != ',';
      assert x[1..] == p[1..] + t;
      var rest := Split(x[1..]);
      assert Split(x) == [[x[0]] + rest[0]] + rest[1..];
      assert [p[0]] + (p[1..] + Split(t)[0]) == p + Split(t)[0];
    } else {
      assert p + t == t;
      assert p + Split(t)[0] == Split(t)[0];
      assert Split(t) == [Split(t)[0]] + Split(t)[1..];
    }
  }

  /** Joining comma-free pieces then splitting gives back the pieces. */
  lemma {:induction false} SplitJoin(parts: seq<string>)
    requires |parts| >= 1
    requires forall p :: p in parts ==> ',' !in p
    ensures Split(Join(parts)) == parts
  {
    assert parts[0] in parts;
    if |parts| == 1 {
      SplitWithoutComma(parts[0], "");
      assert parts[0] + "" == parts[0];
    } else {
      SplitJoin(parts[1..]);
      SplitJoinStep(parts[0], parts[1..]);
      assert [parts[0]] + parts[1..] == parts;
    }
  }

  /** One more comma-free piece in front of pieces that already split back. */
  lemma SplitJoinStep(p: string, t: seq<string>)
    requires ',' !in p && t != [] && Split(Join(t)) == t
    ensures Split(Join([p] + t)) == [p] + t
  {
    var j := Join(t);
    JoinCons(p, t);
    assert p + "," + j == p + ([','] + j);
    SplitAfterComma(j);
    SplitBehindPrefix(p, [','] + j, "", t);
    assert p + "" == p;
  }

  /** A comma-free prefix only lengthens the first piece. */
  lemma SplitBehindPrefix(p: string, x: string, h: string, rest: seq<string>)
    requires ',' !in p && Split(x) == [h] + rest
    ensures Split(p + x) == [p + h] + rest
  {
    SplitWithoutComma(p, x);
    assert Split(x)[0] == h && Split(x)[1..] == rest;
  }

  lemma SplitAfterComma(j: string)
    ensures Split([','] + j) == [""] + Split(j)
  {
    var x := [','] + j;
    assert x[0] == ',' && x[1..] == j;
  }

  // ---------------------------------------------------------------- numbers

  function DigitValue(c: char): nat
    requires IsDigit(c)
  {
    c as int - '0' as int
  }

  function DigitChar(d: nat): (c: char)
    requires d < 10
    ensures IsDigit(c) && DigitValue(c) == d
  {
    ('0' as int + d) as char
  }

  /** The value of a string of decimal digits, most significant first. */
  function DigitsValue(ds: string): nat
    requires AllDigits(ds)
  {
    if ds == [] then 0 else DigitsValue(ds[..|ds| - 1]) * 10 + DigitValue(ds[|ds| - 1])
  }

  /** The longest run of decimal digits at the start of `s`. */
  function DigitPrefix(s: string): (r: string)
    ensures |r| <= |s| && r == s[..|r|] && AllDigits(r)
    ensures |r| == |s| || !IsDigit(s[|r|])
  {
    if s != [] && IsDigit(s[0]) then [s[0]] + DigitPrefix(s[1..]) else []
  }

  /** The decimal numeral of `n`, without leading zeros. */
  function Decimal(n: nat): (r: string)
    ensures |r| >= 1 && AllDigits(r)
    ensures DigitsValue(r) == n
  {
    if n < 10 then [DigitChar(n)]
    else
      var r := Decimal(n / 10) + [DigitChar(n % 10)];
      assert r[..|r| - 1] == Decimal(n / 10);
      r
  }

  /** `String(i)` (and `${i}`) for an integer-valued number. */
  function IntToString(i: int): string {
    if i < 0 then "-" + Decimal(-i) else Decimal(i)
  }

  /** What number-to-string writes for an integer: a minus sign exactly for a negative one,
      then at least one decimal digit and nothing else. */
  lemma IntToStringShape(i: int)
    ensures var s := IntToString(i);
            |s| >= 1 && (s[0] == '-' <==> i < 0) &&
            forall k :: (if i < 0 then 1 else 0) <= k < |s| ==> IsDigit(s[k])
  {
    var d := if i < 0 then Decimal(-i) else Decimal(i);
    assert IsDigit(d[0]);
    if i < 0 {
      var s := "-" + d;
      assert forall k :: 1 <= k < |s| ==> s[k] == d[k - 1];
    }
  }

  /** `parseInt(s, 10)`; `None` is `NaN`. Leading white space and one sign are skipped,
      then the longest run of digits is read; anything after it is ignored. */
  function ParseInt(s: string): (r: Option<int>)
    ensures r.None? <==> DigitPrefix(SkipSign(TrimStart(s))) == []
  {
    var t := TrimStart(s);
    var digits := DigitPrefix(SkipSign(t));
    if digits == [] then None else Some(SignOf(t) * DigitsValue(digits))
  }

  function SignOf(t: string): int {
    if t != [] && t[0] == '-' then -1 else 1
  }

  function SkipSign(t: string): string {
    if t != [] && (t[0] == '-' || t[0] == '+') then t[1..] else t
  }

  lemma {:induction false} DigitPrefixOfDigits(ds: string, rest: string)
    requires AllDigits(ds)
    requires rest == [] || !IsDigit(rest[0])
    ensures DigitPrefix(ds + rest) == ds
  {
    if ds != [] {
      DigitPrefixOfDigits(ds[1..], rest);
      assert (ds + rest)[1..] == ds[1..] + rest;
      assert ds == [ds[0]] + ds[1..];
    } else {
      assert ds + rest == rest;
    }
  }

  lemma SignAndDigitsAreNotSpace(i: int, rest: string)
    ensures !IsSpace((IntToString(i) + rest)[0])
    ensures SkipSign(IntToString(i) + rest) == (if i < 0 then Decimal(-i) else Decimal(i)) + rest
    ensures SignOf(IntToString(i) + rest) == if i < 0 then -1 else 1
  {
    if i < 0 {
      NegativeSign(Decimal(-i) + rest);
      assert IntToString(i) + rest == ['-'] + (Decimal(-i) + rest);
    } else {
      var d := Decimal(i);
      assert IntToString(i) + rest == d + rest;
      assert (d + rest)[0] == d[0];
      DigitIsNotSpace(d[0]);
    }
  }

  lemma NegativeSign(t: string)
    ensures !IsSpace((['-'] + t)[0])
    ensures SkipSign(['-'] + t) == t && SignOf(['-'] + t) == -1
  {
    assert (['-'] + t)[1..] == t;
  }

  lemma DigitIsNotSpace(c: char)
    requires IsDigit(c)
    ensures !IsSpace(c)
  {
  }

  /** `parseInt` reads back what number-to-string wrote, whatever text follows it
      as long as that text does not start with a digit ("12abc", "3.5"). */
  lemma ParseIntReadsIntToString(i: int, rest: string)
    requires rest == [] || !IsDigit(rest[0])
    ensures ParseInt(IntToString(i) + rest) == Some(i)
  {
    var d := if i < 0 then Decimal(-i) else Decimal(i);
    var s := IntToString(i) + rest;
    SignAndDigitsAreNotSpace(i, rest);
    assert TrimStart(s) == s;
    DigitPrefixOfDigits(d, rest);
  }

  /** `Number(s)` for the texts a route parameter holds: white space around an optional sign
      and decimal digits; the empty text is 0; every other text is `NaN` (`None`). */
  function NumberOf(s: string): (r: Option<int>)
    ensures Trim(s) == [] ==> r == Some(0)
  {
    var t := Trim(s);
    if t == [] then Some(0)
    else
      var body := SkipSign(t);
      if body != [] && AllDigits(body) then Some(SignOf(t) * DigitsValue(body)) else None
  }

  /** `s` is how number-to-string conversion writes `id`. */
  predicate WrittenAs(s: string, id: int) {
    s == IntToString(id)
  }

  /** Every text written from an integer converts back to that integer. */
  lemma NumberOfReadsEveryIntToString()
    ensures forall s, i :: WrittenAs(s, i) ==> NumberOf(s) == Some(i)
  {
    forall s, i | WrittenAs(s, i) ensures NumberOf(s) == Some(i) {
      NumberOfIntToString(i);
    }
  }

  /** A route parameter written from an integer id converts back to that id. */
  lemma NumberOfIntToString(i: int)
    ensures NumberOf(IntToString(i)) == Some(i)
  {
    var s := IntToString(i);
    var d := if i < 0 then Decimal(-i) else Decimal(i);
    assert s + "" == s;
    SignAndDigitsAreNotSpace(i, "");
    assert SkipSign(s) == d && d + "" == d;
    assert s[|s| - 1] == d[|d| - 1];
    DigitIsNotSpace(d[|d| - 1]);
    assert Unpadded(s);
    TrimUnpadded(s);
    assert NumberOf(s) == Some(SignOf(s) * DigitsValue(d));
  }
}
