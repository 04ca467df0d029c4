/** Places as the map layer and the reverse-geocoding service hand them to the
    interaction core: a record of optional properties and a position. Only the
    parts the core reads are kept. */
module Places {

  datatype Option<+T> = None | Some(value: T)

  /** Longitude/latitude pair, kept opaque: the core never computes with it. */
  datatype Coordinates = Coordinates(token: nat)

  datatype Address = Address(freeformAddress: Option<string>)

  datatype Properties = Properties(name: Option<string>, address: Option<Address>)

  /** A place: its `properties` (possibly missing) and `geometry.coordinates`. */
  datatype Place = Place(properties: Option<Properties>, coordinates: Coordinates)

  const UnknownPlace: string := "Unknown place"

  /** JavaScript truthiness of a value that is either a string or missing:
      `undefined` and the empty string are falsy. */
  predicate Truthy(v: Option<string>)
  {
    v.Some? && v.value != ""
  }

  /** `properties?.name` */
  function Name(props: Option<Properties>): Option<string>
  {
    if props.Some? then props.value.name else None
  }

  /** `properties?.address?.freeformAddress` */
  function FreeformAddress(props: Option<Properties>): Option<string>
  {
    if props.Some? && props.value.address.Some? then props.value.address.value.freeformAddress
    else None
  }

  /** JavaScript `a || b` where `b` is a string. */
  function Or(a: Option<string>, b: string): string
  {
    if Truthy(a) then a.value else b
  }

  /** The title of a place's popup: its name, else its free-form address,
      else "Unknown place". Empty strings fall through. */
  function DisplayName(props: Option<Properties>): (r: string)
    ensures r != ""
    ensures Truthy(Name(props)) ==> r == Name(props).value
    ensures !Truthy(Name(props)) && Truthy(FreeformAddress(props)) ==> r == FreeformAddress(props).value
    ensures !Truthy(Name(props)) && !Truthy(FreeformAddress(props)) ==> r == UnknownPlace
  {
    Or(Name(props), Or(FreeformAddress(props), UnknownPlace))
  }

  /** Every element before index `i` is falsy. */
  predicate FalsyBefore(candidates: seq<Option<string>>, i: nat)
    requires i <= |candidates|
  {
    forall j :: 0 <= j < i ==> !Truthy(candidates[j])
  }

  /** The value of `c0 || c1 || ... || default`: the first truthy candidate,
      or `default` when every candidate is falsy. */
  function FirstTruthy(candidates: seq<Option<string>>, default: string): (r: string)
    ensures (exists i :: 0 <= i < |candidates| && candidates[i] == Some(r) && Truthy(candidates[i])
                         && FalsyBefore(candidates, i))
            || (r == default && FalsyBefore(candidates, |candidates|))
    decreases |candidates|
  {
    if candidates == [] then default
    else if Truthy(candidates[0]) then
      assert FalsyBefore(candidates, 0);
      candidates[0].value
    else
      var rest := candidates[1..];
      var r := FirstTruthy(rest, default);
      if exists i :: 0 <= i < |rest| && rest[i] == Some(r) && Truthy(rest[i]) && FalsyBefore(rest, i) then
        var i :| 0 <= i < |rest| && rest[i] == Some(r) && Truthy(rest[i]) && FalsyBefore(rest, i);
        assert candidates[i + 1] == rest[i];
        assert FalsyBefore(candidates, i + 1);
        r
      else
        assert FalsyBefore(candidates, |candidates|);
        r
  }

  /** The display name is the first truthy one of the name, the free-form
      address and the literal fallback. */
  lemma DisplayNameIsFirstTruthy(props: Option<Properties>)
    ensures DisplayName(props) == FirstTruthy([Name(props), FreeformAddress(props)], UnknownPlace)
  {
  }

  /** A falsy name is skipped even when the property is present. */
  lemma EmptyNameFallsThrough(addr: string)
    requires addr != ""
    ensures DisplayName(Some(Properties(Some(""), Some(Address(Some(addr)))))) == addr
    ensures DisplayName(Some(Properties(Some(""), Some(Address(Some("")))))) == UnknownPlace
    ensures DisplayName(None) == UnknownPlace
  {
  }
}
