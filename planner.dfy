/**
 * The route planner card: the keyword parser that picks catalog locations out of
 * a sentence, the walking-time estimate between two locations, the assembly of a
 * route that starts at the base (and returns there when asked), and the card's
 * three pieces of state, kept in the `RoutePlanner` class.
 */
module Planner {
  import opened Wrappers
  import opened Text
  import opened Catalog

  // ---------------------------------------------------------------- table keys

  /** The key fragment for a name: lower case, each run of white space a `-`, apostrophes removed. */
  function NameSlug(name: string): string {
    RemoveChar(CollapseSpaces(Lower(name)), '\'')
  }

  /** A key fragment has no white space and no apostrophe, and is lower case. */
  lemma NameSlugShape(name: string)
    ensures var r := NameSlug(name); NoSpace(r) && '\'' !in r && IsLower(r)
  {
    var lowered := Lower(name);
    LowerIsLower(name);
    CollapseHasNoSpace(lowered, false);
    CollapseKeepsLower(lowered, false);
    RemoveCharKeeps(CollapseSpaces(lowered), '\'');
  }

  /** The key fragment for a location: the base is always "tandon", any other location goes by its name. */
  function Slug(l: Location): string {
    if l.id == BaseId then "tandon" else NameSlug(l.name)
  }

  /** The key under which the table would hold the walk from `from` to `to`. */
  function WalkKey(from: Location, to: Location): string {
    Slug(from) + "-" + Slug(to)
  }

  /** A part of a name without white space or apostrophes passes into the key only lower-cased. */
  lemma NameSlugAppend(p: string, q: string)
    requires NoSpace(p) && '\'' !in p
    ensures NameSlug(p + q) == Lower(p) + NameSlug(q)
    ensures NameSlug(q + p) == NameSlug(q) + Lower(p)
  {
    LowerAppend(p, q);
    LowerAppend(q, p);
    assert NoSpace(Lower(p)) && '\'' !in Lower(p);
    CollapseAppend(Lower(p), Lower(q), false);
    CollapseNoSpace(Lower(p), false);
    CollapseAppend(Lower(q), Lower(p), false);
    CollapseNoSpace(Lower(p), EndsInSpace(Lower(q), false));
    RemoveCharAppend(Lower(p), CollapseSpaces(Lower(q)), '\'');
    RemoveCharAppend(CollapseSpaces(Lower(q)), Lower(p), '\'');
  }

  /** One space between two words becomes one `-`. */
  lemma NameSlugSpaced(p: string, q: string)
    requires NoSpace(p) && '\'' !in p
    requires q == [] || !IsSpace(q[0])
    ensures NameSlug(p + " " + q) == Lower(p) + "-" + NameSlug(q)
  {
    LowerAppend(p + " ", q);
    LowerAppend(p, " ");
    assert Lower(" ") == " ";
    assert NoSpace(Lower(p)) && '\'' !in Lower(p);
    assert Lower(q) == [] || !IsSpace(Lower(q)[0]);
    CollapseSpaced(Lower(p), Lower(q));
    RemoveCharAppend(Lower(p) + "-", CollapseSpaces(Lower(q)), '\'');
    RemoveCharAppend(Lower(p), "-", '\'');
    assert RemoveChar("-", '\'') == "-";
  }

  // ---------------------------------------------------------------- walking minutes

  /** The distance a location is at, in tenths of a mile; a missing one counts as 0. */
  function DistanceOf(l: Location): nat {
    match l.distance
    case None => 0
    case Some(t) => t
  }

  /** `parseFloat` of a location's rendered distance reads back `DistanceOf`; a location without
      a distance counts as 0. */
  lemma DistanceOfParses(l: Location)
    ensures l.distance == None ==> DistanceOf(l) == 0
    ensures l.distance.Some? ==> ParseTenths(DistanceText(l.distance.value)) == Some(DistanceOf(l))
  {
    if l.distance.Some? {
      DistanceRoundTrip(l.distance.value);
    }
  }

  /** The estimate used when the table has no entry: 20 minutes a mile plus 5, in whole minutes. */
  function FallbackMinutes(a: nat, b: nat): (m: nat)
    ensures m >= 5
    ensures m == 5 <==> a == b
  {
    2 * (if a >= b then a - b else b - a) + 5
  }

  function Abs(x: real): real {
    if x < 0.0 then -x else x
  }

  /** With distances of whole tenths of a mile, `|a - b| * 20 + 5` is already a whole number,
      so rounding changes nothing and the estimate is exact. */
  lemma FallbackIsRoundedEstimate(a: nat, b: nat)
    ensures FallbackMinutes(a, b) as real == Abs(a as real / 10.0 - b as real / 10.0) * 20.0 + 5.0
  {
  }

  /** The estimate does not depend on the direction of the walk. */
  lemma FallbackSymmetric(a: nat, b: nat)
    ensures FallbackMinutes(a, b) == FallbackMinutes(b, a)
  {
  }

  /** `getWalkTime` against a pair table: the entry for the key when there is a truthy (non-zero)
      one, else the estimate from the two distances. */
  function WalkTimeIn(table: map<string, nat>, from: Location, to: Location): (m: nat)
    ensures m > 0
    ensures WalkKey(from, to) in table && table[WalkKey(from, to)] != 0 ==> m == table[WalkKey(from, to)]
    ensures !(WalkKey(from, to) in table && table[WalkKey(from, to)] != 0) ==>
      m == FallbackMinutes(DistanceOf(from), DistanceOf(to))
  {
    var key := WalkKey(from, to);
    if key in table && table[key] != 0 then table[key]
    else FallbackMinutes(DistanceOf(from), DistanceOf(to))
  }

  /** `getWalkTime` against `routeDistances`, whose entries are all positive: a key in the
      table gives its entry, any other key the estimate. */
  function WalkTime(from: Location, to: Location): (m: nat)
    ensures m > 0
    ensures WalkKey(from, to) in RouteDistances ==> m == RouteDistances[WalkKey(from, to)]
    ensures WalkKey(from, to) !in RouteDistances ==> m == FallbackMinutes(DistanceOf(from), DistanceOf(to))
  {
    TableValuesPositive();
    WalkTimeIn(RouteDistances, from, to)
  }

  /** No key ending in 'h' or 'y' is in the table. */
  lemma KeyEndingMisses(key: string)
    requires key != [] && (key[|key| - 1] == 'h' || key[|key| - 1] == 'y')
    ensures key !in RouteDistances
  {
    TableKeysLastChar();
  }

  /** No key beginning "st" is in the table. */
  lemma KeyStartMisses(key: string)
    requires |key| >= 2 && key[0] == 's' && key[1] == 't'
    ensures key !in RouteDistances
  {
    TableKeysFirstChars();
  }

  /** No key beginning with 'b' and with an 'r' at index 9 is in the table. */
  lemma KeyIndex9Misses(key: string)
    requires |key| >= 10 && key[0] == 'b' && key[9] == 'r'
    ensures key !in RouteDistances
  {
    TableKeysIndex9();
  }

  /** The last character of a name that ends in a plain word is kept, lower-cased. */
  lemma NameSlugLastChar(front: string, last: string)
    requires NoSpace(last) && '\'' !in last && last != []
    ensures var r := NameSlug(front + last); r != [] && r[|r| - 1] == LowerChar(last[|last| - 1])
  {
    NameSlugAppend(last, front);
  }

  /** The first characters of a name that begins with a plain word are kept, lower-cased. */
  lemma NameSlugFirstChars(first: string, rest: string)
    requires NoSpace(first) && '\'' !in first && |first| >= 2
    ensures var r := NameSlug(first + rest); |r| >= 2 && r[0] == LowerChar(first[0]) && r[1] == LowerChar(first[1])
  {
    NameSlugAppend(first, rest);
  }

  /** After an eight-letter first word and a space, index 9 holds the second word's first character. */
  lemma NameSlugIndex9(first: string, second: string)
    requires NoSpace(first) && '\'' !in first && |first| == 8
    requires second != [] && !IsSpace(second[0]) && second[0] != '\''
    ensures var r := NameSlug(first + " " + second); |r| >= 10 && r[0] == LowerChar(first[0]) && r[9] == LowerChar(second[0])
  {
    NameSlugSpaced(first, second);
    assert second == [second[0]] + second[1..];
    NameSlugAppend([second[0]], second[1..]);
  }

  /** A walk to a location whose name ends in a word ending in 'h' or 'y' finds no table entry. */
  lemma WalkToNameEndingMisses(a: Location, b: Location, front: string, last: string)
    requires b.id != BaseId && b.name == front + last
    requires NoSpace(last) && '\'' !in last && last != []
    requires LowerChar(last[|last| - 1]) == 'h' || LowerChar(last[|last| - 1]) == 'y'
    ensures WalkKey(a, b) !in RouteDistances
  {
    NameSlugLastChar(front, last);
    var key := WalkKey(a, b);
    assert key[|key| - 1] == Slug(b)[|Slug(b)| - 1];
    KeyEndingMisses(key);
  }

  /** A walk from a location whose name begins "St" (in any case) finds no table entry. */
  lemma WalkFromNameStartMisses(a: Location, b: Location, first: string, rest: string)
    requires a.id != BaseId && a.name == first + rest
    requires NoSpace(first) && '\'' !in first && |first| >= 2
    requires LowerChar(first[0]) == 's' && LowerChar(first[1]) == 't'
    ensures WalkKey(a, b) !in RouteDistances
  {
    NameSlugFirstChars(first, rest);
    var key := WalkKey(a, b);
    assert key[0] == 's' && key[1] == 't';
    KeyStartMisses(key);
  }

  /** A walk from a location whose name is an eight-letter word beginning with 'b', a space and
      a word beginning with 'r' finds no table entry. */
  lemma WalkFromSecondWordMisses(a: Location, b: Location, first: string, second: string)
    requires a.id != BaseId && a.name == first + " " + second
    requires NoSpace(first) && '\'' !in first && |first| == 8 && LowerChar(first[0]) == 'b'
    requires second != [] && !IsSpace(second[0]) && second[0] != '\'' && LowerChar(second[0]) == 'r'
    ensures WalkKey(a, b) !in RouteDistances
  {
    NameSlugIndex9(first, second);
    var key := WalkKey(a, b);
    assert key[0] == 'b' && key[9] == 'r';
    KeyIndex9Misses(key);
  }

  /** The first coffee shop's name, split at its last word. */
  lemma Coffee1NameEnding(l: Location)
    requires l == CoffeeShops[0]
    ensures l.id != BaseId && l.name == "Starbucks " + "MetroTech"
    ensures NoSpace("MetroTech") && '\'' !in "MetroTech" && LowerChar("MetroTech"[8]) == 'h'
  {
  }

  /** The first coffee shop's name, split after its first word. */
  lemma Coffee1NameStart(l: Location)
    requires l == CoffeeShops[0]
    ensures l.id != BaseId && l.name == "Starbucks" + " MetroTech"
    ensures NoSpace("Starbucks") && '\'' !in "Starbucks"
    ensures LowerChar("Starbucks"[0]) == 's' && LowerChar("Starbucks"[1]) == 't'
  {
  }

  /** The second coffee shop's name, split at its last word. */
  lemma Coffee2NameEnding(l: Location)
    requires l == CoffeeShops[1]
    ensures l.id != BaseId && l.name == "Brooklyn Roasting " + "Company"
    ensures NoSpace("Company") && '\'' !in "Company" && LowerChar("Company"[6]) == 'y'
  {
  }

  /** The second coffee shop's name, split at its first space. */
  lemma Coffee2NameStart(l: Location)
    requires l == CoffeeShops[1]
    ensures l.id != BaseId && l.name == "Brooklyn" + " " + "Roasting Company"
  {
    var first, second := "Brooklyn", "Roasting Company";
    assert l.name == first + " " + second;
  }

  /** The two parts of that split: an eight-letter word beginning with 'b', and a word beginning with 'r'. */
  lemma Coffee2NameWords()
    ensures NoSpace("Brooklyn") && '\'' !in "Brooklyn" && |"Brooklyn"| == 8 && LowerChar("Brooklyn"[0]) == 'b'
    ensures !IsSpace("Roasting Company"[0]) && "Roasting Company"[0] != '\'' && LowerChar("Roasting Company"[0]) == 'r'
  {
  }

  /** No walk from or to a coffee shop finds a table entry, whatever the other end is:
      the table names the coffee shops by id while the key uses their names. */
  lemma CoffeeLegsUseFallback(a: Location, b: Location)
    requires a in CoffeeShops || b in CoffeeShops
    ensures WalkKey(a, b) !in RouteDistances
    ensures WalkTime(a, b) == FallbackMinutes(DistanceOf(a), DistanceOf(b))
  {
    if b == CoffeeShops[0] {
      Coffee1NameEnding(b);
      WalkToNameEndingMisses(a, b, "Starbucks ", "MetroTech");
    } else if b == CoffeeShops[1] {
      Coffee2NameEnding(b);
      WalkToNameEndingMisses(a, b, "Brooklyn Roasting ", "Company");
    } else if a == CoffeeShops[0] {
      Coffee1NameStart(a);
      WalkFromNameStartMisses(a, b, "Starbucks", " MetroTech");
    } else {
      Coffee2NameStart(a);
      Coffee2NameWords();
      WalkFromSecondWordMisses(a, b, "Brooklyn", "Roasting Company");
    }
  }

  /** An ASCII letter: neither white space, nor an apostrophe, nor a digit. */
  predicate AsciiLetter(c: char) {
    'A' <= c <= 'Z' || 'a' <= c <= 'z'
  }

  /** A name whose first three characters and last character are letters, so that they pass
      into its key fragment only lower-cased, and whose start does not spell "c?f". */
  predicate AvoidsCoffeeIdShape(name: string) {
    && |name| >= 3
    && AsciiLetter(name[0]) && AsciiLetter(name[1]) && AsciiLetter(name[2]) && AsciiLetter(name[|name| - 1])
    && !(LowerChar(name[0]) == 'c' && LowerChar(name[2]) == 'f')
  }

  /** A key fragment that neither begins "c?f" nor ends in '1' or '2'. */
  predicate SlugAvoidsCoffeeIdShape(r: string) {
    |r| >= 3 && !(r[0] == 'c' && r[2] == 'f') && r[|r| - 1] != '1' && r[|r| - 1] != '2'
  }

  /** A letter is neither white space nor an apostrophe, and lower-cases to a letter. */
  lemma LetterIsPlain(c: char)
    requires AsciiLetter(c)
    ensures !IsSpace(c) && c != '\'' && AsciiLetter(LowerChar(c))
  {
  }

  /** Such a name gives such a key fragment. */
  lemma NameSlugAvoidsCoffeeIdShape(name: string)
    requires AvoidsCoffeeIdShape(name)
    ensures SlugAvoidsCoffeeIdShape(NameSlug(name))
  {
    var n := |name| - 1;
    LetterIsPlain(name[0]);
    LetterIsPlain(name[1]);
    LetterIsPlain(name[2]);
    LetterIsPlain(name[n]);
    var first, rest := name[..3], name[3..];
    assert first == [name[0], name[1], name[2]];
    assert name == first + rest;
    NameSlugAppend(first, rest);
    assert name == name[..n] + [name[n]];
    NameSlugLastChar(name[..n], [name[n]]);
  }

  /** Each coffee shop's name has that shape. */
  lemma CoffeeNameAvoidsCoffeeIdShape(i: nat)
    requires i < |CoffeeShops|
    ensures AvoidsCoffeeIdShape(CoffeeShops[i].name)
  {
    var n := CoffeeShops[i].name;
    if i == 0 {
      assert n == "Starbucks MetroTech";
      assert n[0] == 'S' && n[1] == 't' && n[2] == 'a' && n[|n| - 1] == 'h';
    } else {
      assert n == "Brooklyn Roasting Company";
      assert n[0] == 'B' && n[1] == 'r' && n[2] == 'o' && n[|n| - 1] == 'y';
    }
  }

  /** Each attraction's name has that shape. */
  lemma AttractionNameAvoidsCoffeeIdShape(i: nat)
    requires i < |Attractions|
    ensures AvoidsCoffeeIdShape(Attractions[i].name)
  {
    var n := Attractions[i].name;
    if i == 0 {
      assert n == "Brooklyn Bridge Park";
      assert n[0] == 'B' && n[1] == 'r' && n[2] == 'o' && n[|n| - 1] == 'k';
    } else if i == 1 {
      assert n == "DUMBO";
      assert n[0] == 'D' && n[1] == 'U' && n[2] == 'M' && n[|n| - 1] == 'O';
    } else if i == 2 {
      assert n == "Brooklyn Bridge";
      assert n[0] == 'B' && n[1] == 'r' && n[2] == 'o' && n[|n| - 1] == 'e';
    } else {
      assert n == "Jane's Carousel";
      assert n[0] == 'J' && n[1] == 'a' && n[2] == 'n' && n[|n| - 1] == 'l';
    }
  }

  /** Each restaurant's name has that shape. */
  lemma RestaurantNameAvoidsCoffeeIdShape(i: nat)
    requires i < |Restaurants|
    ensures AvoidsCoffeeIdShape(Restaurants[i].name)
  {
    var n := Restaurants[i].name;
    if i == 0 {
      assert n == "Shake Shack";
      assert n[0] == 'S' && n[1] == 'h' && n[2] == 'a' && n[|n| - 1] == 'k';
    } else if i == 1 {
      assert n == "Chipotle Mexican Grill";
      assert n[0] == 'C' && n[1] == 'h' && n[2] == 'i' && n[|n| - 1] == 'l';
    } else if i == 2 {
      assert n == "Joe's Pizza";
      assert n[0] == 'J' && n[1] == 'o' && n[2] == 'e' && n[|n| - 1] == 'a';
    } else if i == 3 {
      assert n == "Poke Bowl";
      assert n[0] == 'P' && n[1] == 'o' && n[2] == 'k' && n[|n| - 1] == 'l';
    } else {
      assert n == "Court Street Grocers";
      assert n[0] == 'C' && n[1] == 'o' && n[2] == 'u' && n[|n| - 1] == 's';
    }
  }

  /** Every location of the catalog has a key fragment of that shape. */
  lemma CatalogSlugsAvoidCoffeeIdShape()
    ensures forall l | l in AllLocations :: SlugAvoidsCoffeeIdShape(Slug(l))
  {
    CatalogLayout();
    BaseIdOnlyAtZero();
    forall i | 0 <= i < |AllLocations|
      ensures SlugAvoidsCoffeeIdShape(Slug(AllLocations[i]))
    {
      if i == 0 {
        assert Slug(AllLocations[i]) == "tandon";
      } else if i < 3 {
        CoffeeNameAvoidsCoffeeIdShape(i - 1);
        NameSlugAvoidsCoffeeIdShape(CoffeeShops[i - 1].name);
      } else if i < 7 {
        AttractionNameAvoidsCoffeeIdShape(i - 3);
        NameSlugAvoidsCoffeeIdShape(Attractions[i - 3].name);
      } else {
        RestaurantNameAvoidsCoffeeIdShape(i - 7);
        NameSlugAvoidsCoffeeIdShape(Restaurants[i - 7].name);
      }
    }
  }

  /** Two such fragments joined by `-` give a key without the shape of a coffee shop's id key. */
  lemma JoinedSlugsAvoidCoffeeIdShape(x: string, y: string)
    requires SlugAvoidsCoffeeIdShape(x) && SlugAvoidsCoffeeIdShape(y)
    ensures !CoffeeIdShaped(x + "-" + y)
  {
    var key := x + "-" + y;
    assert key[0] == x[0] && key[2] == x[2];
    assert key[|key| - 1] == y[|y| - 1];
  }

  /** The table entries that name a coffee shop by id are never read: no walk between two
      catalog locations builds one of their keys. */
  lemma CoffeeIdKeysUnreached(a: Location, b: Location)
    requires a in AllLocations && b in AllLocations
    ensures WalkKey(a, b) !in CoffeeIdKeys
  {
    CatalogSlugsAvoidCoffeeIdShape();
    JoinedSlugsAvoidCoffeeIdShape(Slug(a), Slug(b));
    UnshapedKeyNotCoffeeId(WalkKey(a, b));
  }

  // ---------------------------------------------------------------- parsing

  /** Some keyword of the location occurs in the (lower-cased) text. */
  predicate Matches(l: Location, text: string) {
    exists k | 0 <= k < |l.keywords| :: Includes(text, l.keywords[k])
  }

  /** Some element of `locs` carries the id `id` (`===` on ids). */
  predicate HasId(locs: seq<Location>, id: Id) {
    exists j | 0 <= j < |locs| :: locs[j].id == id
  }

  /** Catalog entry `i` matches and no earlier matching entry shares its id. */
  predicate FirstOfItsId(c: seq<Location>, text: string, i: nat)
    requires i < |c|
  {
    Matches(c[i], text) && forall j | 0 <= j < i :: Matches(c[j], text) ==> c[j].id != c[i].id
  }

  /** The entries of `c` at the positions `idx`, in that order. */
  function Select(c: seq<Location>, idx: seq<nat>): (r: seq<Location>)
    requires forall k | 0 <= k < |idx| :: idx[k] < |c|
    ensures |r| == |idx| && forall k | 0 <= k < |idx| :: r[k] == c[idx[k]]
  {
    seq(|idx|, k requires 0 <= k < |idx| => c[idx[k]])
  }

  /** A matching entry has a first matching entry with its id at or before it. */
  lemma {:induction false} FirstOfItsIdExists(c: seq<Location>, text: string, j: nat)
    requires j < |c| && Matches(c[j], text)
    ensures exists i | 0 <= i <= j :: FirstOfItsId(c, text, i) && c[i].id == c[j].id
    decreases j
  {
    if !FirstOfItsId(c, text, j) {
      var j' :| 0 <= j' < j && Matches(c[j'], text) && c[j'].id == c[j].id;
      FirstOfItsIdExists(c, text, j');
    }
  }

  /** The positions of the first `n` catalog entries the parser keeps: increasing, and exactly
      the entries that match and whose id no earlier matching entry has. */
  function KeptIndices(c: seq<Location>, text: string, n: nat): (idx: seq<nat>)
    requires n <= |c|
    ensures forall k | 0 <= k < |idx| :: idx[k] < n
    ensures forall k, m | 0 <= k < m < |idx| :: idx[k] < idx[m]
    ensures forall i | 0 <= i < n :: (i in idx <==> FirstOfItsId(c, text, i))
    decreases n
  {
    if n == 0 then []
    else
      var prev := KeptIndices(c, text, n - 1);
      KeptStep(c, text, n, prev);
      if Matches(c[n - 1], text) && !HasId(Select(c, prev), c[n - 1].id) then prev + [n - 1] else prev
  }

  /** The duplicate test against what was kept so far is the test against all earlier matches. */
  lemma KeptStep(c: seq<Location>, text: string, n: nat, prev: seq<nat>)
    requires 0 < n <= |c|
    requires forall k | 0 <= k < |prev| :: prev[k] < n - 1
    requires forall i | 0 <= i < n - 1 :: (i in prev <==> FirstOfItsId(c, text, i))
    ensures HasId(Select(c, prev), c[n - 1].id) <==> exists j | 0 <= j < n - 1 :: Matches(c[j], text) && c[j].id == c[n - 1].id
  {
    var kept := Select(c, prev);
    if HasId(kept, c[n - 1].id) {
      var k :| 0 <= k < |kept| && kept[k].id == c[n - 1].id;
      assert prev[k] in prev;
      assert FirstOfItsId(c, text, prev[k]);
    }
    if exists j | 0 <= j < n - 1 :: Matches(c[j], text) && c[j].id == c[n - 1].id {
      var j :| 0 <= j < n - 1 && Matches(c[j], text) && c[j].id == c[n - 1].id;
      FirstOfItsIdExists(c, text, j);
      var i :| 0 <= i <= j && FirstOfItsId(c, text, i) && c[i].id == c[j].id;
      assert i in prev;
      var k :| 0 <= k < |prev| && prev[k] == i;
      assert kept[k].id == c[n - 1].id;
    }
  }

  /** What the parser has kept after the first `n` entries of catalog `c`, for the lower-cased
      text `t`: an entry is added when it matches and no entry kept so far has its id. */
  function ParsedUpTo(c: seq<Location>, t: string, n: nat): seq<Location>
    requires n <= |c|
    decreases n
  {
    if n == 0 then []
    else
      var prev := ParsedUpTo(c, t, n - 1);
      if Matches(c[n - 1], t) && !HasId(prev, c[n - 1].id) then prev + [c[n - 1]] else prev
  }

  /** What the parser keeps of the whole catalog `c`. */
  function ParsedFrom(c: seq<Location>, t: string): seq<Location> {
    ParsedUpTo(c, t, |c|)
  }

  /** What `parseInput` returns for `text`: matching runs against the lower-cased text. */
  function Parsed(text: string): seq<Location> {
    ParsedFrom(AllLocations, Lower(text))
  }

  /** The parser keeps exactly the entries at the positions `KeptIndices` characterises. */
  lemma {:induction false} ParsedUpToKept(c: seq<Location>, t: string, n: nat)
    requires n <= |c|
    ensures ParsedUpTo(c, t, n) == Select(c, KeptIndices(c, t, n))
    decreases n
  {
    if n > 0 {
      var prev := KeptIndices(c, t, n - 1);
      ParsedUpToKept(c, t, n - 1);
      KeptStep(c, t, n, prev);
      assert Select(c, prev + [n - 1]) == Select(c, prev) + [c[n - 1]];
    }
  }

  /** `parseInput`: one pass over the catalog, keeping each entry that has a keyword in the
      lower-cased text unless an entry with the same id was already kept. */
  method ParseInput(catalog: seq<Location>, text: string) returns (found: seq<Location>)
    ensures found == ParsedFrom(catalog, Lower(text))
  {
    var lowerText := Lower(text);
    found := [];
    var i := 0;
    while i < |catalog|
      invariant 0 <= i <= |catalog|
      invariant found == ParsedUpTo(catalog, lowerText, i)
    {
      var location := catalog[i];
      if Matches(location, lowerText) && !HasId(found, location.id) {
        found := found + [location];
      }
      i := i + 1;
    }
  }

  /** Every location kept is some catalog entry that is the first match of its id. */
  lemma ParsedFromElement(c: seq<Location>, t: string, x: Location)
    requires x in ParsedFrom(c, t)
    ensures exists i | 0 <= i < |c| :: c[i] == x && FirstOfItsId(c, t, i)
  {
    ParsedUpToKept(c, t, |c|);
    var idx := KeptIndices(c, t, |c|);
    var p := ParsedFrom(c, t);
    var m :| 0 <= m < |p| && p[m] == x;
    assert idx[m] in idx;
  }

  /** Every location kept has a keyword in the text, and every catalog entry with a
      keyword in the text is represented among those kept by its id. */
  lemma ParsedFromMatches(c: seq<Location>, t: string)
    ensures forall k | 0 <= k < |ParsedFrom(c, t)| :: Matches(ParsedFrom(c, t)[k], t)
    ensures forall i | 0 <= i < |c| :: Matches(c[i], t) ==> HasId(ParsedFrom(c, t), c[i].id)
  {
    ParsedUpToKept(c, t, |c|);
    var idx := KeptIndices(c, t, |c|);
    var p := ParsedFrom(c, t);
    forall k | 0 <= k < |p|
      ensures Matches(p[k], t)
    {
      assert idx[k] in idx;
    }
    forall i | 0 <= i < |c| && Matches(c[i], t)
      ensures HasId(p, c[i].id)
    {
      FirstOfItsIdExists(c, t, i);
      var first :| 0 <= first <= i && FirstOfItsId(c, t, first) && c[first].id == c[i].id;
      assert first in idx;
      var k :| 0 <= k < |idx| && idx[k] == first;
      assert p[k].id == c[i].id;
    }
  }

  /** No two locations kept share an id. */
  lemma ParsedFromIdsDistinct(c: seq<Location>, t: string)
    ensures forall a, b | 0 <= a < b < |ParsedFrom(c, t)| :: ParsedFrom(c, t)[a].id != ParsedFrom(c, t)[b].id
  {
    ParsedUpToKept(c, t, |c|);
    var idx := KeptIndices(c, t, |c|);
    forall a, b | 0 <= a < b < |idx|
      ensures c[idx[a]].id != c[idx[b]].id
    {
      assert idx[a] in idx && idx[b] in idx;
      assert FirstOfItsId(c, t, idx[a]) && FirstOfItsId(c, t, idx[b]);
    }
  }

  /** The catalog starts with the base, and no other entry has the base's id. */
  predicate BaseFirst(c: seq<Location>) {
    c != [] && c[0] == Base && forall i | 0 < i < |c| :: c[i].id != BaseId
  }

  /** The planner's catalog has that shape. */
  lemma CatalogBaseFirst()
    ensures BaseFirst(AllLocations)
  {
    CatalogLayout();
    BaseIdOnlyAtZero();
  }

  /** When the base is among the locations kept, it comes first. */
  lemma ParsedFromBaseFirst(c: seq<Location>, t: string)
    requires BaseFirst(c)
    ensures HasId(ParsedFrom(c, t), BaseId) ==> ParsedFrom(c, t)[0] == Base
  {
    ParsedUpToKept(c, t, |c|);
    var idx := KeptIndices(c, t, |c|);
    var p := ParsedFrom(c, t);
    if HasId(p, BaseId) {
      var k :| 0 <= k < |p| && p[k].id == BaseId;
      assert p[k] == c[idx[k]];
      assert idx[k] == 0;
      forall m | 0 < m < |idx|
        ensures idx[m] > 0
      {
        assert idx[0] < idx[m];
      }
    }
  }

  /** A text containing "tandon", "school" or "回学校" (in any case) puts the base first. */
  lemma BaseKeywordsPickBase(text: string)
    requires Includes(Lower(text), "tandon") || Includes(Lower(text), "school") || Includes(Lower(text), "回学校")
    ensures Parsed(text) != [] && Parsed(text)[0] == Base
  {
    CatalogBaseFirst();
    assert Base.keywords[0] == "tandon" && Base.keywords[2] == "school" && Base.keywords[4] == "回学校";
    assert Matches(AllLocations[0], Lower(text));
    ParsedFromMatches(AllLocations, Lower(text));
    ParsedFromBaseFirst(AllLocations, Lower(text));
  }

  /** When attraction `k` has a keyword in the text, restaurant `k`, which shares its numeric id
      and comes later in the catalog, is never returned. */
  lemma RestaurantShadowed(text: string, k: nat)
    requires 1 <= k <= 4 && Matches(AllLocations[2 + k], Lower(text))
    ensures forall x | x in Parsed(text) :: !(x.kind == "restaurant" && x.id == Numbered(k))
  {
    var t := Lower(text);
    forall x | x in ParsedFrom(AllLocations, t)
      ensures !(x.kind == "restaurant" && x.id == Numbered(k))
    {
      ParsedFromElement(AllLocations, t, x);
      var i :| 0 <= i < |AllLocations| && AllLocations[i] == x && FirstOfItsId(AllLocations, t, i);
      RestaurantNotFirst(t, k, i);
    }
  }

  /** The index-level step: a restaurant entry with id `k` is not the first match of its id. */
  lemma RestaurantNotFirst(t: string, k: nat, i: nat)
    requires 1 <= k <= 4 && Matches(AllLocations[2 + k], t)
    requires i < |AllLocations| && FirstOfItsId(AllLocations, t, i)
    ensures !(AllLocations[i].kind == "restaurant" && AllLocations[i].id == Numbered(k))
  {
    CatalogKinds();
    SharedNumericIds();
    if AllLocations[i].kind == "restaurant" {
      assert 7 <= i < 12;
      if i < 11 {
        assert AllLocations[i - 4].id == AllLocations[i].id == Numbered(i - 6);
        assert !Matches(AllLocations[i - 4], t);
      }
    }
  }

  // ---------------------------------------------------------------- assembling a route

  /** `input.match(/回|return|back/i)`: the pattern is found ignoring ASCII case. */
  predicate ReturnCue(text: string) {
    Includes(text, "回") || Includes(Lower(text), "return") || Includes(Lower(text), "back")
  }

  /** The base is put in front unless a location with its id is already there. */
  function WithBase(locs: seq<Location>): (r: seq<Location>)
    ensures r != []
  {
    if HasId(locs, BaseId) then locs else [Base] + locs
  }

  /** The base is appended when a return is asked for and the route does not already end there. */
  function WithReturn(route: seq<Location>, cue: bool): seq<Location>
    requires route != []
  {
    if cue && route[|route| - 1].id != BaseId then route + [Base] else route
  }

  /** The route planned over catalog `c` for `text`. */
  function RouteFrom(c: seq<Location>, text: string): seq<Location> {
    WithReturn(WithBase(ParsedFrom(c, Lower(text))), ReturnCue(text))
  }

  /** The route `handlePlanRoute` stores for `text`. */
  function RouteFor(text: string): seq<Location> {
    RouteFrom(AllLocations, text)
  }

  /** The sum of `time` over the consecutive legs of a route. */
  function LegSum(route: seq<Location>, time: (Location, Location) -> nat): nat {
    if |route| <= 1 then 0 else time(route[0], route[1]) + LegSum(route[1..], time)
  }

  /** Adding a stop adds the leg from the previous last stop. */
  lemma {:induction false} LegSumSnoc(route: seq<Location>, x: Location, time: (Location, Location) -> nat)
    requires route != []
    ensures LegSum(route + [x], time) == LegSum(route, time) + time(route[|route| - 1], x)
    decreases |route|
  {
    if |route| > 1 {
      assert (route + [x])[1..] == route[1..] + [x];
      LegSumSnoc(route[1..], x, time);
    }
  }

  /** With every leg taking at least a minute, a single stop takes no time and every further
      stop adds at least a minute. */
  lemma {:induction false} LegSumBounds(route: seq<Location>, time: (Location, Location) -> nat)
    requires forall a, b :: time(a, b) > 0
    ensures |route| <= 1 ==> LegSum(route, time) == 0
    ensures LegSum(route, time) >= |route| - 1
    decreases |route|
  {
    if |route| > 1 {
      LegSumBounds(route[1..], time);
    }
  }

  /** The walking minutes of a route, leg by leg. */
  function TotalTime(route: seq<Location>): nat {
    LegSum(route, WalkTime)
  }

  /** A route of n stops takes at least n - 1 minutes, and a single stop none. */
  lemma TotalTimeBounds(route: seq<Location>)
    ensures |route| <= 1 ==> TotalTime(route) == 0
    ensures TotalTime(route) >= |route| - 1
  {
    LegSumBounds(route, WalkTime);
  }

  /** A three-stop route takes its two legs. */
  lemma LegSumThree(a: Location, b: Location, c: Location, time: (Location, Location) -> nat)
    ensures LegSum([a, b, c], time) == time(a, b) + time(b, c)
  {
    assert [a, b, c][1..] == [b, c];
    assert [b, c][1..] == [c];
    assert LegSum([c], time) == 0;
    assert LegSum([b, c], time) == time(b, c);
  }

  /** The base, the first coffee shop, then DUMBO: both legs miss the table (it names the
      coffee shop by id), so the total is the two estimates, 9 + 17 minutes. */
  lemma CoffeeThenDumbo(coffee: Location, dumbo: Location)
    requires coffee == CoffeeShops[0] && dumbo == FromAttraction(Attractions[1])
    ensures TotalTime([Base, coffee, dumbo]) == 26
  {
    LegSumThree(Base, coffee, dumbo, WalkTime);
    CoffeeLegsUseFallback(Base, coffee);
    CoffeeLegsUseFallback(coffee, dumbo);
  }

  /** The assembly keeps its input unchanged and in order, after one base exactly when the
      input has no location with the base's id, and adds at most one base at the end. */
  lemma AssemblyKeeps(p: seq<Location>, cue: bool)
    ensures var r := WithReturn(WithBase(p), cue);
      var front := if HasId(p, BaseId) then 0 else 1;
      front + |p| <= |r| <= front + |p| + 1 && r[front..front + |p|] == p
      && (front == 1 ==> r[0] == Base) && (|r| > front + |p| ==> r[|r| - 1] == Base)
  {
    var w := WithBase(p);
    var front := if HasId(p, BaseId) then 0 else 1;
    assert w[front..] == p;
    var r := WithReturn(w, cue);
    assert r[..|w|] == w;
    assert r[front..front + |p|] == w[front..];
  }

  /** On a list whose base, if any, is at the front and whose ids are distinct, the route
      starts at the base, a return cue ends it there, and the base is nowhere but at the
      ends, never twice in a row. */
  lemma AssemblyBases(p: seq<Location>, cue: bool)
    requires HasId(p, BaseId) ==> p[0] == Base
    requires forall a, b | 0 <= a < b < |p| :: p[a].id != p[b].id
    ensures var r := WithReturn(WithBase(p), cue);
      r[0] == Base
      && (cue ==> r[|r| - 1] == Base)
      && (forall i | 0 < i < |r| - 1 :: r[i].id != BaseId)
      && forall i | 0 <= i < |r| - 1 :: !(r[i].id == BaseId && r[i + 1].id == BaseId)
  {
    var w := WithBase(p);
    assert forall i | 0 < i < |w| :: w[i].id != BaseId by {
      if HasId(p, BaseId) {
        assert p[0].id == BaseId;
      } else {
        assert forall i | 0 < i < |w| :: w[i] == p[i - 1];
      }
    }
    if cue && w[|w| - 1].id == BaseId {
      assert |w| == 1;
      assert w[0] == Base;
    }
  }

  /** Over a catalog that starts with the base, every route starts at the base, ends there on
      a return cue, and has the base nowhere else and never twice in a row. */
  lemma RouteBases(c: seq<Location>, text: string)
    requires BaseFirst(c)
    ensures var r := RouteFrom(c, text);
      r[0] == Base
      && (ReturnCue(text) ==> r[|r| - 1] == Base)
      && (forall i | 0 < i < |r| - 1 :: r[i].id != BaseId)
      && forall i | 0 <= i < |r| - 1 :: !(r[i].id == BaseId && r[i + 1].id == BaseId)
  {
    ParsedFromBaseFirst(c, Lower(text));
    ParsedFromIdsDistinct(c, Lower(text));
    AssemblyBases(ParsedFrom(c, Lower(text)), ReturnCue(text));
  }

  /** A return leg adds exactly the walk from the last stop back to the base. */
  lemma ReturnAddsLeg(p: seq<Location>)
    ensures var w := WithBase(p);
      w[|w| - 1].id != BaseId ==> TotalTime(WithReturn(w, true)) == TotalTime(w) + WalkTime(w[|w| - 1], Base)
  {
    var w := WithBase(p);
    if w[|w| - 1].id != BaseId {
      LegSumSnoc(w, Base, WalkTime);
    }
  }

  /** The start of `finalRoute`: the base, unless a location with its id is there, then the locations. */
  method PrependBase(locations: seq<Location>) returns (finalRoute: seq<Location>)
    ensures finalRoute == WithBase(locations)
  {
    finalRoute := [];
    if !HasId(locations, BaseId) {
      finalRoute := finalRoute + [Base];
    }
    finalRoute := finalRoute + locations;
  }

  /** The return: the base again on a cue, unless the route already ends there. */
  method AppendReturn(route: seq<Location>, cue: bool) returns (finalRoute: seq<Location>)
    requires route != []
    ensures finalRoute == WithReturn(route, cue)
  {
    finalRoute := route;
    if cue && finalRoute[|finalRoute| - 1].id != BaseId {
      finalRoute := finalRoute + [Base];
    }
  }

  /** Building `finalRoute`: the base in front unless a location with its id is there, then
      the locations, then the base again on a return cue unless the route already ends there. */
  method AssembleRoute(locations: seq<Location>, cue: bool) returns (finalRoute: seq<Location>)
    ensures finalRoute == WithReturn(WithBase(locations), cue)
  {
    finalRoute := PrependBase(locations);
    finalRoute := AppendReturn(finalRoute, cue);
  }

  /** The loop adding up the minutes of consecutive legs, each leg timed by `time`. */
  method SumLegs(finalRoute: seq<Location>, time: (Location, Location) -> nat) returns (total: nat)
    ensures total == LegSum(finalRoute, time)
  {
    total := 0;
    if finalRoute == [] {
      return;
    }
    var i := 0;
    while i < |finalRoute| - 1
      invariant 0 <= i <= |finalRoute| - 1
      invariant total == LegSum(finalRoute[..i + 1], time)
    {
      var prefix := finalRoute[..i + 1];
      assert finalRoute[..i + 2] == prefix + [finalRoute[i + 1]];
      assert prefix[|prefix| - 1] == finalRoute[i];
      LegSumSnoc(prefix, finalRoute[i + 1], time);
      total := total + time(finalRoute[i], finalRoute[i + 1]);
      i := i + 1;
    }
    assert finalRoute[..i + 1] == finalRoute;
  }

  // ---------------------------------------------------------------- the card's state

  /** How a press of the plan button ends: a route was planned, the input was blank, or no
      location was recognised (the source shows an alert). */
  datatype PlanOutcome = Planned | BlankInput | NothingRecognised

  /** How a press of the plan button ends for `text` over catalog `c`: blank exactly when the
      text trims to nothing, nothing recognised exactly when it does not but the parser keeps
      no location, planned otherwise. */
  predicate OutcomeFits(c: seq<Location>, text: string, outcome: PlanOutcome) {
    && (outcome == BlankInput <==> Trim(text) == [])
    && (outcome == NothingRecognised <==> Trim(text) != [] && ParsedFrom(c, Lower(text)) == [])
  }

  /** A planned route and its total: the route assembled for `text` over `c`, and the sum of
      its legs, each timed by `time`. */
  predicate PlannedRoute(c: seq<Location>, time: (Location, Location) -> nat, text: string, r: seq<Location>, total: nat) {
    r == RouteFrom(c, text) && total == LegSum(r, time)
  }

  /** The steps of `handlePlanRoute` over catalog `c`, with legs timed by `time`: stop on a blank
      text, stop when nothing is recognised, else assemble the route and add up its legs. */
  method Plan(c: seq<Location>, time: (Location, Location) -> nat, text: string)
    returns (outcome: PlanOutcome, finalRoute: seq<Location>, total: nat)
    requires BaseFirst(c)
    ensures OutcomeFits(c, text, outcome)
    ensures outcome == Planned ==> PlannedRoute(c, time, text, finalRoute, total) && finalRoute[0] == Base
  {
    if Trim(text) == [] {
      return BlankInput, [], 0;
    }
    var locations := ParseInput(c, text);
    if |locations| == 0 {
      return NothingRecognised, [], 0;
    }
    finalRoute := AssembleRoute(locations, ReturnCue(text));
    total := SumLegs(finalRoute, time);
    RouteBases(c, text);
    outcome := Planned;
  }

  /** The state of the route planner card: the catalog and the leg timing it reads, and its
      three state fields. */
  class RoutePlanner {
    const catalog: seq<Location>
    const legTime: (Location, Location) -> nat
    var input: string
    var route: seq<Location>
    var totalTime: nat

    /** The catalog starts with the base, and a stored route starts at the base. */
    predicate Consistent()
      reads this
    {
      BaseFirst(catalog) && (route == [] || route[0] == Base)
    }

    constructor ()
      ensures catalog == AllLocations && legTime == WalkTime
      ensures input == [] && route == [] && totalTime == 0 == TotalTime(route)
      ensures Consistent()
    {
      catalog := AllLocations;
      legTime := WalkTime;
      input := [];
      route := [];
      totalTime := 0;
      CatalogBaseFirst();
    }

    /** The text field's change handler. */
    method SetInput(text: string)
      modifies this
      ensures input == text && route == old(route) && totalTime == old(totalTime)
    {
      input := text;
    }

    /** `handlePlanRoute`: the route and its total are stored only when a route was planned. */
    method PlanRoute() returns (outcome: PlanOutcome)
      requires Consistent()
      modifies this
      ensures input == old(input)
      ensures OutcomeFits(catalog, input, outcome)
      ensures outcome != Planned ==> route == old(route) && totalTime == old(totalTime)
      ensures outcome == Planned ==> PlannedRoute(catalog, legTime, input, route, totalTime)
      ensures Consistent()
    {
      var finalRoute, total;
      outcome, finalRoute, total := Plan(catalog, legTime, input);
      if outcome == Planned {
        route := finalRoute;
        totalTime := total;
      }
    }

    /** `handleClearRoute`. */
    method ClearRoute()
      requires Consistent()
      modifies this
      ensures input == [] && route == [] && totalTime == 0
      ensures Consistent()
    {
      input := [];
      route := [];
      totalTime := 0;
    }
  }
}
