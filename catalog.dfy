/**
 * The static data of the route planner: the base location, the coffee shops,
 * the attraction and restaurant records, the rules that turn those records into
 * catalog entries with matching keywords, the combined catalog and the sparse
 * table of walking minutes between named locations.
 *
 * A distance such as "1.2 miles" is kept as a whole number of tenths of a mile (12);
 * `DistanceText` renders it back and `ParseTenths` reads it, the way `parseFloat` does.
 */
module Catalog {
  import opened Wrappers
  import opened Text

  /** Location ids are strings for the base and the coffee shops and numbers for
      the attraction and restaurant records; `===` never equates the two kinds. */
  datatype Id = Named(text: string) | Numbered(n: nat)

  /** A catalog entry. An empty `description` or `address` stands for a missing
      (and therefore falsy) field; a missing keyword list behaves like an empty one. */
  datatype Location = Location(
    id: Id,
    name: string,
    kind: string,
    keywords: seq<string>,
    description: string,
    address: string,
    distance: Option<nat>)

  datatype AttractionRecord = AttractionRecord(id: nat, name: string, description: string, distance: nat, category: string)

  datatype RestaurantRecord = RestaurantRecord(id: nat, name: string, cuisine: string, distance: nat, address: string)

  // ---------------------------------------------------------------- distances

  /** How a distance of `t` tenths of a mile is written in the data: "X.Y miles". */
  function DistanceText(t: nat): string {
    NatToString(t / 10) + "." + [DigitChar(t % 10)] + " miles"
  }

  /** Number of leading decimal digits. */
  function LeadingDigits(s: string): (k: nat)
    ensures k <= |s| && IsDigits(s[..k])
    ensures k < |s| ==> !('0' <= s[k] <= '9')
  {
    if s != [] && '0' <= s[0] <= '9' then
      var k := 1 + LeadingDigits(s[1..]);
      assert s[..k] == [s[0]] + s[1..][..k - 1];
      k
    else 0
  }

  /** `parseFloat` on a distance of the form "X.Y…", in tenths; None for any other shape. */
  function ParseTenths(s: string): Option<nat> {
    var k := LeadingDigits(s);
    if 0 < k && k + 1 < |s| && s[k] == '.' && '0' <= s[k + 1] <= '9'
       && (k + 2 == |s| || !('0' <= s[k + 2] <= '9'))
    then Some(10 * DecimalValue(s[..k]) + (s[k + 1] as int - '0' as int))
    else None
  }

  /** Reading a rendered distance gives back the number of tenths. */
  lemma DistanceRoundTrip(t: nat)
    ensures ParseTenths(DistanceText(t)) == Some(t)
  {
    var w := NatToString(t / 10);
    var s := DistanceText(t);
    assert s == w + ("." + [DigitChar(t % 10)] + " miles");
    LeadingDigitsOf(w, "." + [DigitChar(t % 10)] + " miles");
    assert s[..|w|] == w;
    DecimalRoundTrip(t / 10);
  }

  lemma {:induction false} LeadingDigitsOf(w: string, rest: string)
    requires IsDigits(w)
    requires rest == [] || !('0' <= rest[0] <= '9')
    ensures LeadingDigits(w + rest) == |w|
    decreases |w|
  {
    if w != [] {
      assert (w + rest)[1..] == w[1..] + rest;
      LeadingDigitsOf(w[1..], rest);
    } else {
      assert w + rest == rest;
    }
  }

  // ---------------------------------------------------------------- the base and the coffee shops

  const BaseId := Named("tandon")

  const Base := Location(BaseId, "NYU Tandon", "campus",
    ["tandon", "nyu", "school", "campus", "回学校", "回tandon"],
    "NYU Tandon School of Engineering", "", None)

  const CoffeeShops: seq<Location> := [
    Location(Named("coffee1"), "Starbucks MetroTech", "coffee",
      ["咖啡", "coffee", "starbucks", "星巴克"], "", "MetroTech Center", Some(2)),
    Location(Named("coffee2"), "Brooklyn Roasting Company", "coffee",
      ["咖啡", "coffee", "brooklyn roasting"], "", "Jay Street", Some(5))
  ]

  // ---------------------------------------------------------------- attraction and restaurant records

  const Attractions: seq<AttractionRecord> := [
    AttractionRecord(1, "Brooklyn Bridge Park", "Stunning waterfront park with Manhattan skyline views", 12, "Park"),
    AttractionRecord(2, "DUMBO", "Trendy neighborhood with cobblestone streets and art galleries", 8, "Neighborhood"),
    AttractionRecord(3, "Brooklyn Bridge", "Iconic bridge connecting Brooklyn and Manhattan", 10, "Landmark"),
    AttractionRecord(4, "Jane's Carousel", "Historic carousel in Brooklyn Bridge Park", 13, "Entertainment")
  ]

  const Restaurants: seq<RestaurantRecord> := [
    RestaurantRecord(1, "Shake Shack", "American", 2, "MetroTech Center"),
    RestaurantRecord(2, "Chipotle Mexican Grill", "Mexican", 3, "Lawrence St"),
    RestaurantRecord(3, "Joe's Pizza", "Italian", 4, "Fulton St"),
    RestaurantRecord(4, "Poke Bowl", "Japanese", 3, "Jay Street"),
    RestaurantRecord(5, "Court Street Grocers", "Deli", 5, "Court St")
  ]

  // ---------------------------------------------------------------- derivation rules

  /** An attraction's keywords: its whole lower-cased name, each word of it, its category. */
  function AttractionKeywords(a: AttractionRecord): seq<string> {
    [Lower(a.name)] + Split(Lower(a.name), ' ') + [Lower(a.category)]
  }

  /** A restaurant's keywords: its whole lower-cased name, its cuisine, each word of its name. */
  function RestaurantKeywords(r: RestaurantRecord): seq<string> {
    [Lower(r.name), Lower(r.cuisine)] + Split(Lower(r.name), ' ')
  }

  /** The catalog entry of an attraction: the record's fields, the type tag overwritten. */
  function FromAttraction(a: AttractionRecord): (l: Location)
    ensures l.id == Numbered(a.id) && l.name == a.name && l.kind == "attraction"
    ensures l.description == a.description && l.address == "" && l.distance == Some(a.distance)
  {
    Location(Numbered(a.id), a.name, "attraction", AttractionKeywords(a), a.description, "", Some(a.distance))
  }

  /** The catalog entry of a restaurant: the record's fields, the type tag overwritten. */
  function FromRestaurant(r: RestaurantRecord): (l: Location)
    ensures l.id == Numbered(r.id) && l.name == r.name && l.kind == "restaurant"
    ensures l.description == "" && l.address == r.address && l.distance == Some(r.distance)
  {
    Location(Numbered(r.id), r.name, "restaurant", RestaurantKeywords(r), "", r.address, Some(r.distance))
  }

  /** What an attraction's keyword list holds: the full name first, the words of the
      name in order (they re-join to the name), the category last, all lower case. */
  lemma AttractionKeywordsShape(a: AttractionRecord)
    ensures var ks := FromAttraction(a).keywords;
      && |ks| == |Split(Lower(a.name), ' ')| + 2
      && ks[0] == Lower(a.name)
      && Join(ks[1..|ks| - 1], " ") == Lower(a.name)
      && ks[|ks| - 1] == Lower(a.category)
      && forall k | 0 <= k < |ks| :: IsLower(ks[k])
  {
    var ks := FromAttraction(a).keywords;
    var words := Split(Lower(a.name), ' ');
    assert ks[1..|ks| - 1] == words;
    LowerIsLower(a.name);
    LowerIsLower(a.category);
    SplitKeepsLower(Lower(a.name), ' ');
  }

  /** What a restaurant's keyword list holds: the full name, the cuisine, then the
      words of the name in order (they re-join to the name), all lower case. */
  lemma RestaurantKeywordsShape(r: RestaurantRecord)
    ensures var ks := FromRestaurant(r).keywords;
      && |ks| == |Split(Lower(r.name), ' ')| + 2
      && ks[0] == Lower(r.name)
      && ks[1] == Lower(r.cuisine)
      && Join(ks[2..], " ") == Lower(r.name)
      && forall k | 0 <= k < |ks| :: IsLower(ks[k])
  {
    var ks := FromRestaurant(r).keywords;
    assert ks[2..] == Split(Lower(r.name), ' ');
    LowerIsLower(r.name);
    LowerIsLower(r.cuisine);
    SplitKeepsLower(Lower(r.name), ' ');
  }

  // ---------------------------------------------------------------- the catalog

  /** `attractionsData.map(...)`. */
  function MapAttractions(rs: seq<AttractionRecord>): seq<Location> {
    seq(|rs|, i requires 0 <= i < |rs| => FromAttraction(rs[i]))
  }

  /** `restaurantsData.map(...)`. */
  function MapRestaurants(rs: seq<RestaurantRecord>): seq<Location> {
    seq(|rs|, i requires 0 <= i < |rs| => FromRestaurant(rs[i]))
  }

  const MappedAttractions: seq<Location> := MapAttractions(Attractions)

  const MappedRestaurants: seq<Location> := MapRestaurants(Restaurants)

  /** Every location the planner can match: base, coffee shops, attractions, restaurants. */
  const AllLocations: seq<Location> := [Base] + CoffeeShops + MappedAttractions + MappedRestaurants

  /** The catalog's layout: the base at index 0, then 2 coffee shops, 4 attractions, 5 restaurants. */
  lemma CatalogLayout()
    ensures |AllLocations| == 12
    ensures AllLocations[0] == Base
    ensures AllLocations[1] == CoffeeShops[0] && AllLocations[2] == CoffeeShops[1]
    ensures forall i | 0 <= i < 4 :: AllLocations[3 + i] == FromAttraction(Attractions[i])
    ensures forall i | 0 <= i < 5 :: AllLocations[7 + i] == FromRestaurant(Restaurants[i])
  {
  }

  /** The type tag of each catalog position. */
  lemma CatalogKinds()
    ensures |AllLocations| == 12
    ensures forall i | 0 <= i < 12 ::
      AllLocations[i].kind == (if i == 0 then "campus" else if i < 3 then "coffee" else if i < 7 then "attraction" else "restaurant")
  {
    CatalogLayout();
  }

  /** Only the base carries the id `'tandon'`. */
  lemma BaseIdOnlyAtZero()
    ensures forall i | 0 <= i < |AllLocations| :: (AllLocations[i].id == BaseId <==> i == 0)
  {
    CatalogLayout();
  }

  /** Ids are not unique: attraction k and restaurant k share the id k, for k from 1 to 4. */
  lemma SharedNumericIds()
    ensures forall k | 1 <= k <= 4 :: AllLocations[2 + k].id == AllLocations[6 + k].id == Numbered(k)
    ensures AllLocations[11].id == Numbered(5)
  {
    CatalogLayout();
    RecordIds();
  }

  /** The records number their entries from 1, attractions and restaurants alike. */
  lemma RecordIds()
    ensures |Attractions| == 4 && forall i | 0 <= i < 4 :: Attractions[i].id == i + 1
    ensures |Restaurants| == 5 && forall i | 0 <= i < 5 :: Restaurants[i].id == i + 1
  {
  }

  /** Every keyword in the catalog is lower case, so matching against a lower-cased text
      is insensitive to the case of the text. */
  lemma CatalogKeywordsLowerCase()
    ensures forall i, k | 0 <= i < |AllLocations| && 0 <= k < |AllLocations[i].keywords| ::
      IsLower(AllLocations[i].keywords[k])
  {
    CatalogLayout();
    forall i, k | 0 <= i < |AllLocations| && 0 <= k < |AllLocations[i].keywords|
      ensures IsLower(AllLocations[i].keywords[k])
    {
      if i == 0 {
        assert AllLocations[i] == Base;
      } else if i < 3 {
        assert AllLocations[i] == CoffeeShops[i - 1];
      } else if i < 7 {
        assert AllLocations[i] == FromAttraction(Attractions[i - 3]);
        AttractionKeywordsShape(Attractions[i - 3]);
      } else {
        assert AllLocations[i] == FromRestaurant(Restaurants[i - 7]);
        RestaurantKeywordsShape(Restaurants[i - 7]);
      }
    }
  }

  // ---------------------------------------------------------------- walking minutes

  /** The sparse table of walking minutes, keyed by "from-to". */
  const RouteDistances: map<string, nat> := map[
    "tandon-coffee1" := 4,
    "coffee1-tandon" := 4,
    "tandon-coffee2" := 10,
    "coffee2-tandon" := 10,
    "tandon-dumbo" := 16,
    "dumbo-tandon" := 16,
    "tandon-brooklyn-bridge-park" := 25,
    "brooklyn-bridge-park-tandon" := 25,
    "tandon-brooklyn-bridge" := 20,
    "brooklyn-bridge-tandon" := 20,
    "coffee1-dumbo" := 14,
    "dumbo-coffee1" := 14,
    "coffee2-dumbo" := 8,
    "dumbo-coffee2" := 8,
    "brooklyn-bridge-park-dumbo" := 5,
    "dumbo-brooklyn-bridge-park" := 5,
    "brooklyn-bridge-dumbo" := 8,
    "dumbo-brooklyn-bridge" := 8,
    "coffee1-brooklyn-bridge-park" := 23,
    "brooklyn-bridge-park-coffee1" := 23,
    "coffee1-shake-shack" := 3,
    "shake-shack-coffee1" := 3,
    "tandon-shake-shack" := 4,
    "shake-shack-tandon" := 4,
    "tandon-joes-pizza" := 8,
    "joes-pizza-tandon" := 8,
    "shake-shack-dumbo" := 16,
    "dumbo-shake-shack" := 16
  ]

  /** Every table value is positive, so the truthiness test on a lookup only fails on a missing key. */
  lemma TableValuesPositive()
    ensures forall key | key in RouteDistances :: RouteDistances[key] > 0
  {
  }

  /** The legs between the base and the coffee shops are listed in both directions with the same minutes. */
  lemma TableSymmetricBaseCoffee()
    ensures "tandon-coffee1" in RouteDistances && "coffee1-tandon" in RouteDistances
      && RouteDistances["tandon-coffee1"] == RouteDistances["coffee1-tandon"] == 4
    ensures "tandon-coffee2" in RouteDistances && "coffee2-tandon" in RouteDistances
      && RouteDistances["tandon-coffee2"] == RouteDistances["coffee2-tandon"] == 10
  {
  }

  /** The other legs from the base are listed in both directions with the same minutes. */
  lemma TableSymmetricBaseOthers()
    ensures "tandon-dumbo" in RouteDistances && "dumbo-tandon" in RouteDistances
      && RouteDistances["tandon-dumbo"] == RouteDistances["dumbo-tandon"] == 16
    ensures "tandon-brooklyn-bridge-park" in RouteDistances && "brooklyn-bridge-park-tandon" in RouteDistances
      && RouteDistances["tandon-brooklyn-bridge-park"] == RouteDistances["brooklyn-bridge-park-tandon"] == 25
    ensures "tandon-brooklyn-bridge" in RouteDistances && "brooklyn-bridge-tandon" in RouteDistances
      && RouteDistances["tandon-brooklyn-bridge"] == RouteDistances["brooklyn-bridge-tandon"] == 20
    ensures "tandon-shake-shack" in RouteDistances && "shake-shack-tandon" in RouteDistances
      && RouteDistances["tandon-shake-shack"] == RouteDistances["shake-shack-tandon"] == 4
    ensures "tandon-joes-pizza" in RouteDistances && "joes-pizza-tandon" in RouteDistances
      && RouteDistances["tandon-joes-pizza"] == RouteDistances["joes-pizza-tandon"] == 8
  {
  }

  /** The legs into DUMBO from elsewhere are listed in both directions with the same minutes. */
  lemma TableSymmetricDumbo()
    ensures "coffee1-dumbo" in RouteDistances && "dumbo-coffee1" in RouteDistances
      && RouteDistances["coffee1-dumbo"] == RouteDistances["dumbo-coffee1"] == 14
    ensures "coffee2-dumbo" in RouteDistances && "dumbo-coffee2" in RouteDistances
      && RouteDistances["coffee2-dumbo"] == RouteDistances["dumbo-coffee2"] == 8
    ensures "brooklyn-bridge-park-dumbo" in RouteDistances && "dumbo-brooklyn-bridge-park" in RouteDistances
      && RouteDistances["brooklyn-bridge-park-dumbo"] == RouteDistances["dumbo-brooklyn-bridge-park"] == 5
    ensures "brooklyn-bridge-dumbo" in RouteDistances && "dumbo-brooklyn-bridge" in RouteDistances
      && RouteDistances["brooklyn-bridge-dumbo"] == RouteDistances["dumbo-brooklyn-bridge"] == 8
  {
  }

  /** The remaining legs are listed in both directions with the same minutes. */
  lemma TableSymmetricRest()
    ensures "coffee1-brooklyn-bridge-park" in RouteDistances && "brooklyn-bridge-park-coffee1" in RouteDistances
      && RouteDistances["coffee1-brooklyn-bridge-park"] == RouteDistances["brooklyn-bridge-park-coffee1"] == 23
    ensures "coffee1-shake-shack" in RouteDistances && "shake-shack-coffee1" in RouteDistances
      && RouteDistances["coffee1-shake-shack"] == RouteDistances["shake-shack-coffee1"] == 3
    ensures "shake-shack-dumbo" in RouteDistances && "dumbo-shake-shack" in RouteDistances
      && RouteDistances["shake-shack-dumbo"] == RouteDistances["dumbo-shake-shack"] == 16
  {
  }

  /** The table holds exactly the 28 keys of the four lemmas above, in the same groups, so
      those lemmas cover every entry. */
  lemma TableKeys()
    ensures RouteDistances.Keys == {
      "tandon-coffee1", "coffee1-tandon", "tandon-coffee2", "coffee2-tandon",
      "tandon-dumbo", "dumbo-tandon", "tandon-brooklyn-bridge-park", "brooklyn-bridge-park-tandon",
      "tandon-brooklyn-bridge", "brooklyn-bridge-tandon", "tandon-shake-shack", "shake-shack-tandon",
      "tandon-joes-pizza", "joes-pizza-tandon",
      "coffee1-dumbo", "dumbo-coffee1", "coffee2-dumbo", "dumbo-coffee2",
      "brooklyn-bridge-park-dumbo", "dumbo-brooklyn-bridge-park", "brooklyn-bridge-dumbo", "dumbo-brooklyn-bridge",
      "coffee1-brooklyn-bridge-park", "brooklyn-bridge-park-coffee1", "coffee1-shake-shack", "shake-shack-coffee1",
      "shake-shack-dumbo", "dumbo-shake-shack"
    }
  {
  }

  /** The keys of the table that name a coffee shop by its id rather than by its name. */
  const CoffeeIdKeys: set<string> := {
    "tandon-coffee1", "coffee1-tandon", "tandon-coffee2", "coffee2-tandon",
    "coffee1-dumbo", "dumbo-coffee1", "coffee2-dumbo", "dumbo-coffee2",
    "coffee1-brooklyn-bridge-park", "brooklyn-bridge-park-coffee1",
    "coffee1-shake-shack", "shake-shack-coffee1"
  }

  /** Those keys all occur in the table. */
  lemma CoffeeIdKeysInTable()
    ensures CoffeeIdKeys <= RouteDistances.Keys
  {
  }

  /** A key that begins "c?f" or ends in the digit of a coffee shop's id. */
  predicate CoffeeIdShaped(k: string) {
    |k| >= 3 && ((k[0] == 'c' && k[2] == 'f') || k[|k| - 1] == '1' || k[|k| - 1] == '2')
  }

  /** Each of those keys has that shape. */
  lemma CoffeeIdKeysShape()
    ensures forall k | k in CoffeeIdKeys :: CoffeeIdShaped(k)
  {
  }

  /** So a key without that shape is none of them. */
  lemma UnshapedKeyNotCoffeeId(k: string)
    requires !CoffeeIdShaped(k)
    ensures k !in CoffeeIdKeys
  {
    CoffeeIdKeysShape();
  }

  /** No table key that begins with 'b' has an 'r' at index 9. */
  lemma TableKeysIndex9()
    ensures forall k | k in RouteDistances :: |k| >= 10 && !(k[0] == 'b' && k[9] == 'r')
  {
  }

  /** No table key ends in 'h' or 'y'. */
  lemma TableKeysLastChar()
    ensures forall k | k in RouteDistances :: |k| > 0 && k[|k| - 1] != 'h' && k[|k| - 1] != 'y'
  {
  }

  /** No table key begins "st". */
  lemma TableKeysFirstChars()
    ensures forall k | k in RouteDistances :: |k| > 1 && !(k[0] == 's' && k[1] == 't')
  {
  }
}
