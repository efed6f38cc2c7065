/** `LocationCellViewModel`: the row shown for a search result while picking a
    place. Its height is fixed and its text is the best address available on
    the platform; the pre-iOS 26 fallback joins the present address parts. */
module LocationCell {
  import opened Wrappers
  import opened Text
  import opened Places

  /** A postal address as `CNPostalAddress`; only the formatter looks inside. */
  datatype PostalAddress = PostalAddress(handle: nat)

  /** `CNPostalAddressFormatter().string(from:)`. */
  type AddressFormatter = PostalAddress -> string

  /** What the cell reads from its `MKMapItem`: the iOS 26 `address?.fullAddress`,
      the placemark's `postalAddress`, and the placemark's address parts. */
  datatype CellItem = CellItem(fullAddress: Option<string>, postalAddress: Option<PostalAddress>, placemark: Placemark)

  /** The separator between kept address parts. */
  const PartSeparator: string := ", "

  /** `height`: the same for every item. */
  function Height(item: CellItem): (h: real)
    ensures h == 60.0
  {
    60.0
  }

  /** The fallback text: the present address parts, in the fixed order, joined
      with `", "`. */
  function FallbackAddress(p: Placemark): string
  {
    Join(PresentParts(p), PartSeparator)
  }

  /** `description`. On iOS 26 the full address, or else the coordinate text
      (`coordinates`, the `%+.6f, %+.6f` rendering, which is an input here);
      before it the formatted postal address, or else the fallback text. */
  function Description(item: CellItem, modernApi: bool, format: AddressFormatter, coordinates: string): (d: string)
    ensures modernApi && item.fullAddress.Some? ==> d == item.fullAddress.value
    ensures modernApi && item.fullAddress.None? ==> d == coordinates
    ensures !modernApi && item.postalAddress.Some? ==> d == format(item.postalAddress.value)
    ensures !modernApi && item.postalAddress.None? ==> d == FallbackAddress(item.placemark)
  {
    if modernApi then item.fullAddress.GetOr(coordinates)
    else match item.postalAddress
      case Some(address) => format(address)
      case None => FallbackAddress(item.placemark)
  }

  /** Where the `i`-th kept part starts in the fallback text. */
  function KeptPartOffset(p: Placemark, i: nat): nat
    requires i <= |PresentParts(p)|
  {
    PartOffset(PresentParts(p), PartSeparator, i)
  }

  /** The fallback text is the kept parts, in order, each followed by exactly
      `", "` except the last, with nothing before the first or after the last. */
  lemma FallbackAddressLayout(p: Placemark, i: nat)
    requires i < |PresentParts(p)|
    ensures var s, parts, o := FallbackAddress(p), PresentParts(p), KeptPartOffset(p, i);
            && o + |parts[i]| <= |s|
            && s[o .. o + |parts[i]|] == parts[i]
            && (i + 1 < |parts| ==> o + |parts[i]| + 2 <= |s| && s[o + |parts[i]| .. o + |parts[i]| + 2] == PartSeparator)
            && (i + 1 == |parts| ==> o + |parts[i]| == |s|)
    ensures KeptPartOffset(p, 0) == 0
  {
    JoinLayout(PresentParts(p), PartSeparator, i);
  }

  /** With every part missing the fallback text is empty, with only the name it
      is the name, and with every part present all eight are kept. */
  lemma FallbackAddressExtremes(p: Placemark)
    ensures (forall i :: 0 <= i < 8 ==> AddressParts(p)[i].None?) ==> FallbackAddress(p) == ""
    ensures p.name.Some? && (forall i :: 1 <= i < 8 ==> AddressParts(p)[i].None?) ==>
              FallbackAddress(p) == p.name.value
    ensures (forall i :: 0 <= i < 8 ==> AddressParts(p)[i].Some?) ==> |PresentParts(p)| == 8
  {
    PresentPartsExtremes(p);
    JoinSmall(PartSeparator, "");
    if forall i :: 0 <= i < 8 ==> AddressParts(p)[i].Some? {
      CompactMapAllSome(AddressParts(p));
    }
    if p.name.Some? && (forall i :: 1 <= i < 8 ==> AddressParts(p)[i].None?) {
      PresentPartsOrder(p);
      var q := p.(name := None);
      assert forall i :: 0 <= i < 8 ==> AddressParts(q)[i].None?;
      PresentPartsExtremes(q);
      JoinSmall(PartSeparator, p.name.value);
    }
  }

  /** The fallback text is empty exactly when no part is kept, or the only
      kept part is itself empty: two kept parts always leave a separator. */
  lemma {:induction false} FallbackAddressEmptyIff(p: Placemark)
    ensures FallbackAddress(p) == "" <==>
              |PresentParts(p)| == 0 || (|PresentParts(p)| == 1 && PresentParts(p)[0] == "")
  {
    var parts := PresentParts(p);
    if |parts| == 0 {
      JoinSmall(PartSeparator, "");
    } else if |parts| == 1 {
      JoinSmall(PartSeparator, parts[0]);
      assert parts == [parts[0]];
    } else {
      JoinLayout(parts, PartSeparator, 0);
    }
  }
}
