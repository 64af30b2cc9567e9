/**
 * What an RSVP reply means, shared by the WhatsApp webhook
 * (src/app/api/wa/webhook/route.ts) and the phone-based update
 * (src/server/rsvp-update.ts): the reply text is mapped to a status, the
 * guests are updated with a record that clears the seating on a NO, and an
 * `rsvp_update` event is published on the event's channel.
 */
module Rsvp {
  import opened Strings
  import opened Options

  /** A guest's RSVP status; `Pending` is the status before any reply. */
  datatype RsvpStatus = Pending | Yes | Maybe | No

  const YesMarker: string := "YES"
  const YesMarkerHebrew: string := "מאשר"
  const MaybeMarker: string := "MAYBE"
  const MaybeMarkerHebrew: string := "אולי"

  /** The reply contains a YES marker, compared without ASCII case. */
  predicate SaysYes(raw: string) {
    Contains(Upper(raw), YesMarker) || Contains(Upper(raw), YesMarkerHebrew)
  }

  /** The reply contains a MAYBE marker, compared without ASCII case. */
  predicate SaysMaybe(raw: string) {
    Contains(Upper(raw), MaybeMarker) || Contains(Upper(raw), MaybeMarkerHebrew)
  }

  /** `statusFromPayload` in the webhook and `canonStatus` in rsvp-update,
      which are the same text: YES markers are tested first, then MAYBE
      markers, and everything else is a NO. */
  function ReplyStatus(raw: string): RsvpStatus {
    var up := Upper(raw);
    if Contains(up, YesMarker) || Contains(up, YesMarkerHebrew) then Yes
    else if Contains(up, MaybeMarker) || Contains(up, MaybeMarkerHebrew) then Maybe
    else No
  }

  /** The three outcomes, in priority order: a reply with both markers is a YES,
      and a reply is never mapped to `Pending`. */
  lemma ReplyStatusPriority(raw: string)
    ensures ReplyStatus(raw) == Yes <==> SaysYes(raw)
    ensures ReplyStatus(raw) == Maybe <==> !SaysYes(raw) && SaysMaybe(raw)
    ensures ReplyStatus(raw) == No <==> !SaysYes(raw) && !SaysMaybe(raw)
    ensures ReplyStatus(raw) != Pending
  {}

  /** The empty reply is a NO. */
  lemma ReplyStatusEmpty()
    ensures ReplyStatus("") == No
  {
    assert !Contains("", YesMarker) && !Contains("", YesMarkerHebrew);
    assert !Contains("", MaybeMarker) && !Contains("", MaybeMarkerHebrew);
  }

  /** The mapping ignores ASCII case. */
  lemma ReplyStatusIgnoresCase(raw: string)
    ensures ReplyStatus(Lower(raw)) == ReplyStatus(raw)
    ensures ReplyStatus(Upper(raw)) == ReplyStatus(raw)
  {
    CaseMappingsAbsorb(raw);
  }

  /** A marker keeps its meaning inside longer text: text around a YES reply
      is still a YES, and text around a MAYBE reply is at least a MAYBE. */
  lemma ReplyStatusInContext(a: string, raw: string, b: string)
    ensures ReplyStatus(raw) == Yes ==> ReplyStatus(a + raw + b) == Yes
    ensures ReplyStatus(raw) == Maybe ==> ReplyStatus(a + raw + b) != No
  {
    CaseMappingConcat(a + raw, b);
    CaseMappingConcat(a, raw);
    var up := Upper(a + raw + b);
    assert up == Upper(a) + Upper(raw) + Upper(b);
    if Contains(Upper(raw), YesMarker) {
      ContainsInContext(Upper(a), Upper(raw), Upper(b), YesMarker);
    }
    if Contains(Upper(raw), YesMarkerHebrew) {
      ContainsInContext(Upper(a), Upper(raw), Upper(b), YesMarkerHebrew);
    }
    if Contains(Upper(raw), MaybeMarker) {
      ContainsInContext(Upper(a), Upper(raw), Upper(b), MaybeMarker);
    }
    if Contains(Upper(raw), MaybeMarkerHebrew) {
      ContainsInContext(Upper(a), Upper(raw), Upper(b), MaybeMarkerHebrew);
    }
  }

  /** Typical button payloads: English ones in any case, and the Hebrew "maybe". */
  lemma ReplyStatusYesExample()
    ensures ReplyStatus("yes") == Yes
  {
    assert Upper("yes") == "YES";
    assert StartsWith(Upper("yes"), YesMarker);
  }

  lemma ReplyStatusMaybeExample()
    ensures ReplyStatus("Maybe") == Maybe
  {
    assert Upper("Maybe") == "MAYBE";
    assert StartsWith(Upper("Maybe"), MaybeMarker);
    NotContainsMissingChar("MAYBE", YesMarker, 2);
    NotContainsMissingChar("MAYBE", YesMarkerHebrew, 0);
  }

  lemma ReplyStatusNoExample()
    ensures ReplyStatus("no") == No
  {
    assert Upper("no") == "NO";
    NotContainsMissingChar("NO", YesMarker, 0);
    NotContainsMissingChar("NO", YesMarkerHebrew, 0);
    NotContainsMissingChar("NO", MaybeMarker, 0);
    NotContainsMissingChar("NO", MaybeMarkerHebrew, 0);
  }

  lemma ReplyStatusHebrewMaybeExample()
    ensures ReplyStatus("אולי") == Maybe
  {
    assert Upper("אולי") == "אולי";
    assert StartsWith(Upper("אולי"), MaybeMarkerHebrew);
    NotContainsMissingChar("אולי", YesMarker, 0);
    NotContainsMissingChar("אולי", YesMarkerHebrew, 0);
  }

  // ---------------------------------------------------------------------
  // The guest update record

  /** A value in an update record: a status, or `null`. */
  datatype FieldValue = StatusValue(status: RsvpStatus) | NullValue

  /** `data = { rsvpStatus: st }`, and `Object.assign(data, { tableId: null,
      seatNumber: null })` when `st` is NO. */
  function UpdateRecord(st: RsvpStatus): map<string, FieldValue> {
    var data := map["rsvpStatus" := StatusValue(st)];
    if st == No then data + map["tableId" := NullValue, "seatNumber" := NullValue] else data
  }

  /** A NO clears the table and the seat; any other status sets only `rsvpStatus`. */
  lemma UpdateRecordFields(st: RsvpStatus)
    ensures "rsvpStatus" in UpdateRecord(st) && UpdateRecord(st)["rsvpStatus"] == StatusValue(st)
    ensures st == No ==> UpdateRecord(st).Keys == {"rsvpStatus", "tableId", "seatNumber"}
                         && UpdateRecord(st)["tableId"] == NullValue && UpdateRecord(st)["seatNumber"] == NullValue
    ensures st != No ==> UpdateRecord(st).Keys == {"rsvpStatus"}
  {}

  /** Which guests `prisma.guest.updateMany` touches. */
  datatype GuestSelector = IdIn(ids: seq<string>) | OfHousehold(householdId: string)

  /** The object published on the bus: `{ type: "rsvp_update", householdId?, guestIds, rsvpStatus }`. */
  datatype RsvpEvent = RsvpEvent(msgType: string, householdId: Option<string>, guestIds: seq<string>, rsvpStatus: RsvpStatus)

  const RsvpUpdateType: string := "rsvp_update"

  /** The effects an RSVP reply has, in the order they happen. */
  datatype Action =
    | UpdateGuests(selector: GuestSelector, data: map<string, FieldValue>)
    | MarkInviteRead(inviteId: string)
    | Publish(channel: string, event: RsvpEvent)
}
