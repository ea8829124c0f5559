/** The shipment card: a carrier and a tracking number, and the carrier's tracking page. */
module ShipmentTracker {
  import opened Constants
  import opened Types

  /** Before anything is stored: USPS, no number. */
  const InitialTrackingInfo: TrackingInfo := TrackingInfo("usps", "")

  /** The two inputs of the card, by their `name`. */
  datatype Field = Carrier | TrackingNumber

  function Get(info: TrackingInfo, field: Field): string {
    match field
    case Carrier => info.carrier
    case TrackingNumber => info.trackingNumber
  }

  /** The change handler: the named field takes the new value, the other keeps its own. */
  function UpdateField(info: TrackingInfo, field: Field, value: string): (r: TrackingInfo)
    ensures Get(r, field) == value
    ensures forall other :: other != field ==> Get(r, other) == Get(info, other)
  {
    match field
    case Carrier => info.(carrier := value)
    case TrackingNumber => info.(trackingNumber := value)
  }

  /** Writing back a field's own value changes nothing; a second write wins over the first. */
  lemma UpdateFieldLaws(info: TrackingInfo, field: Field, a: string, b: string)
    ensures UpdateField(info, field, Get(info, field)) == info
    ensures UpdateField(UpdateField(info, field, a), field, b) == UpdateField(info, field, b)
  {
  }

  /** The carrier's URL prefix; an unknown carrier reads as `undefined` in the template. */
  function CarrierPrefix(carrier: string): (prefix: string)
    ensures carrier in CarrierUrls ==> prefix == CarrierUrls[carrier]
    ensures |prefix| >= |"undefined"|
  {
    if carrier in CarrierUrls then CarrierUrls[carrier] else "undefined"
  }

  /** The tracking page: the carrier's prefix followed by the number, or `#` without a number. */
  function TrackingUrl(info: TrackingInfo): (url: string)
    ensures info.trackingNumber == [] ==> url == "#"
    ensures info.trackingNumber != [] ==>
              |url| == |CarrierPrefix(info.carrier)| + |info.trackingNumber|
              && url[..|CarrierPrefix(info.carrier)|] == CarrierPrefix(info.carrier)
              && url[|CarrierPrefix(info.carrier)|..] == info.trackingNumber
  {
    if info.trackingNumber != [] then CarrierPrefix(info.carrier) + info.trackingNumber else "#"
  }

  /** Two numbers with the same carrier give the same page only if they are the same number. */
  lemma TrackingUrlInjective(a: TrackingInfo, b: TrackingInfo)
    requires a.carrier == b.carrier && a.trackingNumber != [] && b.trackingNumber != []
    requires TrackingUrl(a) == TrackingUrl(b)
    ensures a.trackingNumber == b.trackingNumber
  {
    var p := |CarrierPrefix(a.carrier)|;
    assert a.trackingNumber == TrackingUrl(a)[p..] == TrackingUrl(b)[p..] == b.trackingNumber;
  }

  /** The Track button is disabled without a tracking number, exactly when its URL would be `#`. */
  function TrackDisabled(info: TrackingInfo): (disabled: bool)
    ensures disabled <==> TrackingUrl(info) == "#"
  {
    info.trackingNumber == []
  }

  /** The tracking page shows when it was opened and there is a number to track: never with URL `#`. */
  function ModalShown(isModalOpen: bool, info: TrackingInfo): (shown: bool)
    ensures shown <==> isModalOpen && TrackingUrl(info) != "#"
  {
    isModalOpen && info.trackingNumber != []
  }

  /**
   * Whenever the page shows, its URL is a real tracking URL, never `#`; and
   * clearing the number hides it and disables the button.
   */
  lemma ModalShowsRealUrl(isModalOpen: bool, info: TrackingInfo)
    ensures ModalShown(isModalOpen, info) ==> TrackingUrl(info) != "#" && !TrackDisabled(info)
    ensures var cleared := UpdateField(info, TrackingNumber, "");
            !ModalShown(isModalOpen, cleared) && TrackDisabled(cleared)
  {
    if ModalShown(isModalOpen, info) {
      var url := TrackingUrl(info);
      assert |url| >= |info.trackingNumber| + |CarrierPrefix(info.carrier)|;
      assert |CarrierPrefix(info.carrier)| >= 2 by {
        assert "undefined"[0] == 'u';
      }
    }
  }
}
