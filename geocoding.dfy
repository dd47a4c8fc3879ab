/**
 * Postal-code extraction from geocoder answers: `get_coordinates_and_zip` and `get_zip_code`,
 * with the geocoders' answers given as inputs.
 */
module Geocoding {
  import opened Types

  /** One entry of a geocoder result's `address_components`. */
  datatype AddressComponent = AddressComponent(longName: string, types: seq<string>)

  /** One geocoder result: its `geometry.location` and its `address_components`. */
  datatype GeocodeResult = GeocodeResult(location: LatLon, components: seq<AddressComponent>)

  /** What a call to an outside service gave: an answer, or an exception with its message. */
  datatype Reply<T> = Answered(value: T) | Raised(message: string)

  const PostalCodeType: string := "postal_code"

  predicate IsPostalCode(c: AddressComponent)
  {
    PostalCodeType in c.types
  }

  /** The index of the first postal-code component, or `|cs|` when there is none. */
  function FirstPostalIndex(cs: seq<AddressComponent>): (k: nat)
    ensures k <= |cs|
    ensures forall j :: 0 <= j < k ==> !IsPostalCode(cs[j])
    ensures k < |cs| ==> IsPostalCode(cs[k])
  {
    if cs == [] then 0
    else if IsPostalCode(cs[0]) then 0
    else 1 + FirstPostalIndex(cs[1..])
  }

  /** The `long_name` of the first postal-code component, if any. */
  function FirstPostalCode(cs: seq<AddressComponent>): Option<string>
  {
    var k := FirstPostalIndex(cs);
    if k < |cs| then Some(cs[k].longName) else None
  }

  /** The first-match loop over `address_components`, stopping at the first postal-code component. */
  method FindPostalCode(cs: seq<AddressComponent>) returns (zip: Option<string>)
    ensures zip == FirstPostalCode(cs)
  {
    zip := None;
    var i := 0;
    while i < |cs|
      invariant 0 <= i <= |cs|
      invariant forall j :: 0 <= j < i ==> !IsPostalCode(cs[j])
      invariant zip == None
    {
      if PostalCodeType in cs[i].types {
        zip := Some(cs[i].longName);
        assert FirstPostalIndex(cs) == i;
        return;
      }
      i := i + 1;
    }
    assert FirstPostalIndex(cs) == |cs|;
  }

  /**
   * The postal code found is the `long_name` of a postal-code component that no earlier
   * component precedes, and none is found exactly when no component is a postal code.
   */
  lemma FirstPostalCodeIsFirst(cs: seq<AddressComponent>)
    ensures FirstPostalCode(cs).None? <==> forall j :: 0 <= j < |cs| ==> !IsPostalCode(cs[j])
    ensures forall k :: 0 <= k < |cs| && IsPostalCode(cs[k]) && (forall j :: 0 <= j < k ==> !IsPostalCode(cs[j])) ==>
              FirstPostalCode(cs) == Some(cs[k].longName)
  {
    var f := FirstPostalIndex(cs);
    forall k | 0 <= k < |cs| && IsPostalCode(cs[k]) && (forall j :: 0 <= j < k ==> !IsPostalCode(cs[j]))
      ensures f == k
    {
      assert f <= k;
    }
  }

  /** A Python string is truthy exactly when it is not empty. */
  predicate Truthy(s: Option<string>)
  {
    s.Some? && s.value != ""
  }

  /** Nominatim's `address.postcode`, or none when it found no location or no postcode. */
  type NominatimPostcode = Option<string>

  /** `geolocator.reverse` at a point, reduced to the postcode it reports. */
  type NominatimService = LatLon -> Reply<NominatimPostcode>

  /**
   * `get_coordinates_and_zip`: the first geocoder result's location, with the first postal-code
   * component's `long_name`, replaced by Nominatim's postcode at that location when the name is
   * missing or empty and Nominatim reports a non-empty one; a failed Nominatim call is ignored.
   * It fails exactly when the geocoder raised or found nothing, and a zip code it gives is the
   * non-empty first postal-code name, Nominatim's non-empty postcode, or that name left empty.
   */
  function CoordinatesAndZip(address: string, geocode: Reply<seq<GeocodeResult>>, nominatim: NominatimService)
    : (r: Result<(LatLon, Option<string>), string>)
    ensures r.Err? <==> geocode.Raised? || geocode.value == []
    ensures geocode.Raised? ==> r.error == "Error finding location for address " + address + ": " + geocode.message
    ensures geocode == Answered([]) ==> r.error == "Could not find location for address: " + address
    ensures r.Ok? ==> r.value.0 == geocode.value[0].location
    ensures r.Ok? && Truthy(FirstPostalCode(geocode.value[0].components)) ==>
              r.value.1 == FirstPostalCode(geocode.value[0].components)
    ensures r.Ok? && !Truthy(FirstPostalCode(geocode.value[0].components)) ==>
              if nominatim(r.value.0).Answered? && Truthy(nominatim(r.value.0).value)
              then r.value.1 == nominatim(r.value.0).value
              else r.value.1 == FirstPostalCode(geocode.value[0].components)
  {
    match geocode
    case Raised(msg) => Err("Error finding location for address " + address + ": " + msg)
    case Answered(results) =>
      if results == [] then Err("Could not find location for address: " + address)
      else
        var google := FirstPostalCode(results[0].components);
        var backup := nominatim(results[0].location);
        if Truthy(google) then Ok((results[0].location, google))
        else if backup.Answered? && Truthy(backup.value) then Ok((results[0].location, backup.value))
        else Ok((results[0].location, google))
  }

  method GetCoordinatesAndZip(address: string, geocode: Reply<seq<GeocodeResult>>, nominatim: NominatimService)
    returns (r: Result<(LatLon, Option<string>), string>)
    ensures r == CoordinatesAndZip(address, geocode, nominatim)
  {
    if geocode.Raised? {
      return Err("Error finding location for address " + address + ": " + geocode.message);
    }
    var results := geocode.value;
    if results == [] {
      return Err("Could not find location for address: " + address);
    }
    var location := results[0];
    var zip := FindPostalCode(location.components);
    if !Truthy(zip) {
      var backup := nominatim(location.location);
      if backup.Answered? && Truthy(backup.value) {
        zip := backup.value;
      }
    }
    r := Ok((location.location, zip));
  }

  /**
   * `get_zip_code`: the first reverse-geocoder result's first postal-code component's
   * `long_name` (returned even when empty), else Nominatim's postcode when non-empty, else none;
   * an exception from either call gives none.
   */
  function ZipCodeOf(reverse: Reply<seq<GeocodeResult>>, nominatim: Reply<NominatimPostcode>): Option<string>
  {
    if reverse.Raised? then None
    else if reverse.value != [] && FirstPostalCode(reverse.value[0].components).Some? then
      FirstPostalCode(reverse.value[0].components)
    else if nominatim.Answered? && Truthy(nominatim.value) then nominatim.value
    else None
  }

  method GetZipCode(reverse: Reply<seq<GeocodeResult>>, nominatim: Reply<NominatimPostcode>) returns (zip: Option<string>)
    ensures zip == ZipCodeOf(reverse, nominatim)
  {
    if reverse.Raised? {
      return None;
    }
    var results := reverse.value;
    if results != [] {
      var cs := results[0].components;
      var i := 0;
      while i < |cs|
        invariant 0 <= i <= |cs|
        invariant forall j :: 0 <= j < i ==> !IsPostalCode(cs[j])
      {
        if PostalCodeType in cs[i].types {
          assert FirstPostalIndex(cs) == i;
          return Some(cs[i].longName);
        }
        i := i + 1;
      }
      assert FirstPostalIndex(cs) == |cs|;
    }
    if nominatim.Raised? {
      return None;
    }
    if Truthy(nominatim.value) {
      return nominatim.value;
    }
    return None;
  }

  /**
   * A zip code from `get_zip_code` comes from the reverse geocoder's first result, or else is a
   * non-empty Nominatim postcode; Nominatim is only consulted when that first result has no
   * postal-code component.
   */
  lemma ZipCodeSources(reverse: Reply<seq<GeocodeResult>>, nominatim: Reply<NominatimPostcode>)
    ensures ZipCodeOf(reverse, nominatim).Some? ==>
              (reverse.Answered? && reverse.value != [] &&
               exists k :: 0 <= k < |reverse.value[0].components| && IsPostalCode(reverse.value[0].components[k]) &&
                           ZipCodeOf(reverse, nominatim).value == reverse.value[0].components[k].longName) ||
              (nominatim.Answered? && ZipCodeOf(reverse, nominatim) == nominatim.value && Truthy(nominatim.value))
    ensures reverse.Answered? && reverse.value != [] && FirstPostalCode(reverse.value[0].components).Some? ==>
              forall other :: ZipCodeOf(reverse, nominatim) == ZipCodeOf(reverse, other)
  {
    if ZipCodeOf(reverse, nominatim).Some? && reverse.Answered? && reverse.value != [] &&
       FirstPostalCode(reverse.value[0].components).Some? {
      var cs := reverse.value[0].components;
      var k := FirstPostalIndex(cs);
      assert IsPostalCode(cs[k]) && ZipCodeOf(reverse, nominatim).value == cs[k].longName;
    }
  }
}
