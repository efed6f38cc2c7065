/** The address parts of a MapKit placemark, in the fixed order in which both
    the Wikipedia lookup and the location cell use them. */
module Places {
  import opened Wrappers
  import opened Text

  /** The optional address fields of `CLPlacemark` that the app reads. */
  datatype Placemark = Placemark(
    name: Option<string>,
    thoroughfare: Option<string>,
    subThoroughfare: Option<string>,
    locality: Option<string>,
    subAdministrativeArea: Option<string>,
    administrativeArea: Option<string>,
    postalCode: Option<string>,
    country: Option<string>)

  /** The `addressParts` array: name, thoroughfare, subThoroughfare, locality,
      subAdministrativeArea, administrativeArea, postalCode, country. */
  function AddressParts(p: Placemark): seq<Option<string>>
  {
    [p.name, p.thoroughfare, p.subThoroughfare, p.locality,
     p.subAdministrativeArea, p.administrativeArea, p.postalCode, p.country]
  }

  /** `addressParts.compactMap(\.self)`. */
  function PresentParts(p: Placemark): seq<string>
  {
    CompactMap(AddressParts(p))
  }

  /** The present parts keep the fixed order: dropping the name leaves the
      present parts from the thoroughfare on, and a present name comes first. */
  lemma PresentPartsOrder(p: Placemark)
    ensures p.name.Some? ==> PresentParts(p) == [p.name.value] + PresentParts(p.(name := None))
    ensures |PresentParts(p)| <= 8
    ensures forall v :: v in PresentParts(p) <==> Some(v) in AddressParts(p)
  {
    forall v: string
      ensures v in PresentParts(p) <==> Some(v) in AddressParts(p)
    {
      CompactMapMembership(AddressParts(p), v);
    }
  }

  /** A placemark with every part present yields all eight, in order; one with
      none yields nothing. */
  lemma PresentPartsExtremes(p: Placemark)
    ensures (&& p.name.Some? && p.thoroughfare.Some? && p.subThoroughfare.Some? && p.locality.Some?
             && p.subAdministrativeArea.Some? && p.administrativeArea.Some? && p.postalCode.Some?
             && p.country.Some?) ==>
              PresentParts(p) == [p.name.value, p.thoroughfare.value, p.subThoroughfare.value,
                                  p.locality.value, p.subAdministrativeArea.value,
                                  p.administrativeArea.value, p.postalCode.value, p.country.value]
    ensures (forall i :: 0 <= i < 8 ==> AddressParts(p)[i].None?) ==> PresentParts(p) == []
  {
    if forall i :: 0 <= i < 8 ==> AddressParts(p)[i].Some? {
      CompactMapAllSome(AddressParts(p));
    }
    if forall i :: 0 <= i < 8 ==> AddressParts(p)[i].None? {
      CompactMapAllNone(AddressParts(p));
    }
  }
}
