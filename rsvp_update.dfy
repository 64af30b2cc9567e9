/**
 * `updateRsvpByPhone` (src/server/rsvp-update.ts): the household whose
 * WhatsApp number matches the caller gets every guest set to the reply's
 * status (the seating cleared on a NO), its invite marked read, and an
 * `rsvp_update` event with all its guests published on its event's channel.
 * The household table is a parameter, in the order the lookup scans it.
 */
module RsvpUpdate {
  import opened Strings
  import opened Options
  import opened Rsvp
  import Phone

  /** A household as looked up, with the ids of its guests and its invite, if any. */
  datatype Household = Household(id: string, eventId: string, phoneWa: Option<string>, guestIds: seq<string>, inviteId: Option<string>)

  /** `s.slice(-9)`: the last nine characters, or all of a shorter string. */
  function Last9(s: string): (r: string)
    ensures |r| == if |s| < 9 then |s| else 9
    ensures EndsWith(s, r)
  {
    if |s| <= 9 then s else s[|s| - 9..]
  }

  /** The `OR` of the lookup: the stored number is the canonical number, or
      that number with a `+`, or ends with its last nine characters. */
  predicate PhoneMatches(h: Household, from: string) {
    h.phoneWa.Some? &&
    (h.phoneWa.value == from || h.phoneWa.value == "+" + from || EndsWith(h.phoneWa.value, Last9(from)))
  }

  /** `prisma.household.findFirst`: the first household that matches. */
  function FindHousehold(households: seq<Household>, from: string): Option<Household>
    decreases |households|
  {
    if households == [] then None
    else if PhoneMatches(households[0], from) then Some(households[0])
    else FindHousehold(households[1..], from)
  }

  /** The lookup finds a household exactly when one matches, and then the first. */
  lemma {:induction false} FindHouseholdFirst(households: seq<Household>, from: string)
    ensures FindHousehold(households, from).None? <==> forall i :: 0 <= i < |households| ==> !PhoneMatches(households[i], from)
    ensures FindHousehold(households, from).Some? ==>
              exists i :: && 0 <= i < |households| && FindHousehold(households, from) == Some(households[i])
                          && PhoneMatches(households[i], from)
                          && forall j :: 0 <= j < i ==> !PhoneMatches(households[j], from)
    decreases |households|
  {
    if households != [] && !PhoneMatches(households[0], from) {
      var rest := households[1..];
      FindHouseholdFirst(rest, from);
      forall i | 0 <= i < |rest| ensures rest[i] == households[i + 1] {}
      if FindHousehold(households, from).Some? {
        var i :| && 0 <= i < |rest| && FindHousehold(rest, from) == Some(rest[i])
                 && PhoneMatches(rest[i], from)
                 && forall j :: 0 <= j < i ==> !PhoneMatches(rest[j], from);
        forall j | 0 <= j < i + 1 ensures !PhoneMatches(households[j], from) {
          if j > 0 {
            assert households[j] == rest[j - 1];
          }
        }
      }
      if forall i :: 0 <= i < |rest| ==> !PhoneMatches(rest[i], from) {
        forall i | 0 <= i < |households| ensures !PhoneMatches(households[i], from) {
          if i > 0 {
            assert households[i] == rest[i - 1];
          }
        }
      }
    } else if households != [] {
      assert PhoneMatches(households[0], from);
    }
  }

  /** What `updateRsvpByPhone` returns and the effects it has. */
  datatype Outcome = Outcome(found: bool, actions: seq<Action>)

  /** `updateRsvpByPhone(rawFrom, rawStatus)` */
  function UpdateRsvpByPhone(households: seq<Household>, rawFrom: string, rawStatus: string): Outcome {
    var from := Phone.CanonPhone(rawFrom);
    var status := ReplyStatus(rawStatus);
    match FindHousehold(households, from)
    case None => Outcome(false, [])
    case Some(h) =>
      Outcome(true,
        [UpdateGuests(OfHousehold(h.id), UpdateRecord(status))]
        + (if h.inviteId.Some? then [MarkInviteRead(h.inviteId.value)] else [])
        + [Publish(h.eventId, RsvpEvent(RsvpUpdateType, Some(h.id), h.guestIds, status))])
  }

  /** The result is `true` exactly when some household matches the canonical
      caller number; without a match nothing happens. */
  lemma UpdateRsvpFound(households: seq<Household>, rawFrom: string, rawStatus: string)
    ensures UpdateRsvpByPhone(households, rawFrom, rawStatus).found
            <==> exists i :: 0 <= i < |households| && PhoneMatches(households[i], Phone.CanonPhone(rawFrom))
    ensures !UpdateRsvpByPhone(households, rawFrom, rawStatus).found ==> UpdateRsvpByPhone(households, rawFrom, rawStatus).actions == []
  {
    FindHouseholdFirst(households, Phone.CanonPhone(rawFrom));
  }

  /** On a match, the first matching household's guests are all updated with
      the reply's record, and the event published on its channel names
      exactly those guests, the household and the status; when the household
      has an invite, it is marked read between the two. */
  lemma UpdateRsvpEffects(households: seq<Household>, rawFrom: string, rawStatus: string)
    requires UpdateRsvpByPhone(households, rawFrom, rawStatus).found
    ensures var from := Phone.CanonPhone(rawFrom);
            var out := UpdateRsvpByPhone(households, rawFrom, rawStatus);
            exists i :: && 0 <= i < |households| && PhoneMatches(households[i], from)
                        && (forall j :: 0 <= j < i ==> !PhoneMatches(households[j], from))
                        && var h := households[i];
                        && 2 <= |out.actions| <= 3
                        && out.actions[0] == UpdateGuests(OfHousehold(h.id), UpdateRecord(ReplyStatus(rawStatus)))
                        && out.actions[|out.actions| - 1]
                           == Publish(h.eventId, RsvpEvent(RsvpUpdateType, Some(h.id), h.guestIds, ReplyStatus(rawStatus)))
                        && (|out.actions| == 3 <==> h.inviteId.Some?)
                        && (h.inviteId.Some? ==> out.actions[1] == MarkInviteRead(h.inviteId.value))
  {
    FindHouseholdFirst(households, Phone.CanonPhone(rawFrom));
  }

  /** The stored international form, with or without `+`, matches a caller
      who sends the local form or the international one. */
  lemma MatchesLocalAndInternational(h: Household, n: string)
    requires |n| == 9 && AllDigits(n) && n[0] == '5'
    requires h.phoneWa == Some("972" + n) || h.phoneWa == Some("+972" + n)
    ensures PhoneMatches(h, Phone.CanonPhone("0" + n))
    ensures PhoneMatches(h, Phone.CanonPhone("+972" + n))
  {
    Phone.CanonPhoneMobileForms(n);
    assert "+972" + n == "+" + ("972" + n);
  }

  /** The suffix fallback matches on the last nine characters alone: a caller
      whose number has no digits at all matches every household that has a
      WhatsApp number. */
  lemma DigitlessCallerMatchesAny(h: Household, rawFrom: string)
    requires Phone.DigitsOf(rawFrom) == "" && h.phoneWa.Some?
    ensures PhoneMatches(h, Phone.CanonPhone(rawFrom))
  {
    assert Phone.CanonPhone(rawFrom) == "";
  }
}
