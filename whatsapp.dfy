/**
 * WhatsApp invitation text and deep links (src/lib/whatsapp.ts). The phone
 * formatting here is a second normaliser, different from `Phone.CanonPhone`:
 * it always yields a number that starts with the Israeli country code.
 */
module WhatsApp {
  import opened Strings
  import opened Options
  import Phone

  /** The phone part of `createWhatsAppDeepLink`: strip non-digits, replace a
      leading 0 by 972, keep a number that already starts with 972, and put
      972 in front of anything else. */
  function FormatPhone(phoneNumber: string): (r: string)
    ensures AllDigits(r) && StartsWith(r, "972")
  {
    var cleanPhone := Phone.DigitsOf(phoneNumber);
    if StartsWith(cleanPhone, "0") then "972" + cleanPhone[1..]
    else if StartsWith(cleanPhone, "972") then cleanPhone
    else "972" + cleanPhone
  }

  /** The formatted phone, against the digits of the input. */
  lemma FormatPhoneCases(phoneNumber: string)
    ensures var c := Phone.DigitsOf(phoneNumber);
            && (StartsWith(c, "0") ==> FormatPhone(phoneNumber) == "972" + c[1..])
            && (StartsWith(c, "972") ==> FormatPhone(phoneNumber) == c)
            && (!StartsWith(c, "0") && !StartsWith(c, "972") ==> FormatPhone(phoneNumber) == "972" + c)
  {}

  /** Even an input without any digit gets the country code. */
  lemma FormatPhoneEmpty(p: string)
    requires Phone.DigitsOf(p) == ""
    ensures FormatPhone(p) == "972"
  {}

  /** Formatting an already formatted number changes nothing. */
  lemma FormatPhoneIdempotent(phoneNumber: string)
    ensures FormatPhone(FormatPhone(phoneNumber)) == FormatPhone(phoneNumber)
  {
    var r := FormatPhone(phoneNumber);
    Phone.DigitsOfDigits(r);
    assert r[0] == '9';
  }

  /** Wherever `canonPhone` produces an international 972 number, the
      deep-link formatter produces the same number. */
  lemma FormatPhoneAgreesWithCanon(phoneNumber: string)
    requires StartsWith(Phone.CanonPhone(phoneNumber), "972")
    ensures FormatPhone(phoneNumber) == Phone.CanonPhone(phoneNumber)
  {}

  /** ...but the two normalisers differ elsewhere: a short local number keeps
      its 0 under `canonPhone` and loses it here. */
  lemma FormatPhoneDiffersFromCanon()
    ensures Phone.CanonPhone("0123") == "0123"
    ensures FormatPhone("0123") == "972123"
  {
    assert Phone.DigitsOf("0123") == "0123" by {
      Phone.DigitsOfDigits("0123");
    }
  }

  const LinkPrefix: string := "https://wa.me/"
  const TextMarker: string := "?text="

  /** `createWhatsAppDeepLink`; `encode` stands for `encodeURIComponent`. */
  function DeepLink(phoneNumber: string, message: string, encode: string -> string): string {
    LinkPrefix + FormatPhone(phoneNumber) + TextMarker + encode(message)
  }

  /** The characters of `s` before the first `c` (all of `s` if there is none). */
  function TakeUntil(s: string, c: char): (r: string)
    ensures |r| <= |s| && r == s[..|r|]
    ensures c !in r
    ensures |r| < |s| ==> s[|r|] == c
  {
    if s == [] || s[0] == c then [] else [s[0]] + TakeUntil(s[1..], c)
  }

  lemma {:induction false} TakeUntilSplit(d: string, c: char, t: string)
    requires c !in d
    ensures TakeUntil(d + [c] + t, c) == d
  {
    if d != [] {
      assert (d + [c] + t)[1..] == d[1..] + [c] + t;
      TakeUntilSplit(d[1..], c, t);
    }
  }

  /** Reads the phone number and the encoded text back out of a deep link. */
  function ParseDeepLink(link: string): (r: Option<(string, string)>)
  {
    if !StartsWith(link, LinkPrefix) then None
    else
      var rest := link[|LinkPrefix|..];
      var phone := TakeUntil(rest, '?');
      var tail := rest[|phone|..];
      if StartsWith(tail, TextMarker) then Some((phone, tail[|TextMarker|..])) else None
  }

  /** A deep link carries exactly the formatted phone and the encoded message:
      the phone is all digits, so the first `?` is the one of `?text=`. */
  lemma DeepLinkRoundTrip(phoneNumber: string, message: string, encode: string -> string)
    ensures ParseDeepLink(DeepLink(phoneNumber, message, encode))
            == Some((FormatPhone(phoneNumber), encode(message)))
  {
    var p := FormatPhone(phoneNumber);
    var e := encode(message);
    var link := DeepLink(phoneNumber, message, encode);
    assert link[..|LinkPrefix|] == LinkPrefix;
    var rest := link[|LinkPrefix|..];
    assert rest == p + ['?'] + ("text=" + e);
    assert '?' !in p;
    TakeUntilSplit(p, '?', "text=" + e);
    assert rest[|p|..] == TextMarker + e;
  }

  /** The venue part of `generateWhatsAppMessage`. */
  function VenueSuffix(venue: Option<string>): (r: string)
    ensures r == "" <==> venue.None? || venue.value == ""
    ensures r != "" ==> r == " ב-" + venue.value
  {
    if venue.Some? && venue.value != "" then " ב-" + venue.value else ""
  }

  const Greeting: string := "שלום "
  const InvitationTo: string := ", זה הזמנה ל"
  const OnDate: string := " בתאריך "
  const Question: string := ". האם תגיע/י? אם כן, עם כמה אנשים כולל אותך?"

  /** `generateWhatsAppMessage`; `dateStr` is the already formatted date
      (the `toLocaleDateString` call is not part of this model). */
  function InvitationMessage(guestName: string, eventName: string, dateStr: string, venue: Option<string>): string {
    Greeting + guestName + InvitationTo + eventName + OnDate + dateStr + VenueSuffix(venue) + Question
  }

  lemma ContainsMiddle(a: string, s: string, b: string)
    ensures Contains(a + s + b, s)
  {
    assert StartsWith(s, s);
    ContainsInContext(a, s, b, s);
  }

  /** A given venue appears in the invitation, after " ב-". */
  lemma InvitationNamesVenue(guestName: string, eventName: string, dateStr: string, venue: string)
    requires venue != ""
    ensures Contains(InvitationMessage(guestName, eventName, dateStr, Some(venue)), " ב-" + venue)
  {
    var before := Greeting + guestName + InvitationTo + eventName + OnDate + dateStr;
    assert InvitationMessage(guestName, eventName, dateStr, Some(venue)) == before + (" ב-" + venue) + Question;
    ContainsMiddle(before, " ב-" + venue, Question);
  }

  /** A null, an undefined and an empty venue give the same invitation. */
  lemma InvitationWithoutVenue(guestName: string, eventName: string, dateStr: string)
    ensures InvitationMessage(guestName, eventName, dateStr, None)
         == InvitationMessage(guestName, eventName, dateStr, Some(""))
         == Greeting + guestName + InvitationTo + eventName + OnDate + dateStr + Question
  {}
}
