/** A geocoding result and its display name (WeatherApp/Models/City.swift).
    Latitude and longitude are floating-point and not part of this model. */
module Cities {
  import opened Wrappers

  datatype City = City(
    name: string,
    localNames: Option<map<string, string>>,
    country: string,
    state: Option<string>)
  {
    /** "name, state, country" when a non-empty state is present,
        otherwise "name, country". */
    function DisplayName(): string {
      if state.Some? && state.value != "" then name + ", " + state.value + ", " + country
      else name + ", " + country
    }
  }

  /** The text before the first comma (all of it when there is none). */
  function FirstField(s: string): (r: string)
    ensures |r| <= |s| && r == s[..|r|]
    ensures ',' !in r
  {
    if s == [] || s[0] == ',' then [] else [s[0]] + FirstField(s[1..])
  }

  lemma {:induction false} FirstFieldOfJoin(a: string, b: string)
    requires ',' !in a
    requires b != [] && b[0] == ','
    ensures FirstField(a + b) == a
  {
    if a != [] {
      assert (a + b)[1..] == a[1..] + b;
      FirstFieldOfJoin(a[1..], b);
    }
  }

  /** The two shapes of the display name, with an empty state counted as absent. */
  lemma DisplayNameShapes(c: City)
    ensures c.state.Some? && c.state.value != "" ==>
      c.DisplayName() == c.name + ", " + c.state.value + ", " + c.country
    ensures c.state.None? ==> c.DisplayName() == c.name + ", " + c.country
    ensures c.state == Some("") ==> c.DisplayName() == c.(state := None).DisplayName()
  {
  }

  /** The display name always begins with the city name and ends with the
      country code, and is as long as its parts and separators. */
  lemma DisplayNameFrame(c: City)
    ensures |c.DisplayName()| >= |c.name| + 2 + |c.country|
    ensures c.DisplayName()[..|c.name|] == c.name
    ensures c.DisplayName()[|c.DisplayName()| - |c.country|..] == c.country
    ensures c.DisplayName()[|c.name|..|c.name| + 2] == ", "
  {
  }

  /** When the name has no comma, it can be read back from the display name. */
  lemma DisplayNameRecoversName(c: City)
    requires ',' !in c.name
    ensures FirstField(c.DisplayName()) == c.name
  {
    var rest := if c.state.Some? && c.state.value != "" then ", " + c.state.value + ", " + c.country
                else ", " + c.country;
    assert c.DisplayName() == c.name + rest;
    FirstFieldOfJoin(c.name, rest);
  }

  lemma DisplayNameExamples()
    ensures City("Paris", None, "FR", None).DisplayName() == "Paris, FR"
    ensures City("Paris", None, "US", Some("Texas")).DisplayName() == "Paris, Texas, US"
    ensures City("X", None, "Y", Some("")).DisplayName() == "X, Y"
  {
  }
}
