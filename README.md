# rsvp-seating: the RSVP core, modelled in Dafny

The repository is a wedding and event RSVP application. Hosts import a guest
list from a spreadsheet and send WhatsApp invitations. Guests answer with a
button. A webhook turns the answer into an RSVP status for the right guests
and pushes the change to the host's open guest table. This project models the
logic behind that flow and proves properties of it:

- `phone.dfy` (`Phone`): `canonPhone` and `samePhone`, the Israeli phone normaliser used everywhere a number is compared.
- `whatsapp.dfy` (`WhatsApp`): the invitation text and the `wa.me` deep link, with its own phone formatting.
- `guest_import.dfy` (`GuestImport`): `normalizeHeaders` (Hebrew and English header aliases, trimmed cells) and `toPreviewRows` (schema check, preview rows and the numbered error list). Both are loops over sequences.
- `rsvp.dfy` (`Rsvp`): what the two RSVP writers share. This is the reply-to-status mapping, the update record (seat cleared on a NO), the `rsvp_update` event, and the effects a handler has (`Action`).
- `webhook.dfy` (`Webhook`): the WhatsApp webhook `POST`, with its nested loops over entries and messages. The database lookups are parameters (`Directory`). The database writes and the publications are the sequence of `Action`s it returns.
- `rsvp_update.dfy` (`RsvpUpdate`): `updateRsvpByPhone`, the household lookup by phone and its effects. The household table is a parameter, in scan order.
- `middleware.dfy` (`Middleware`): the route guard: public paths, protected paths, and the redirect to `/login` with `callbackUrl`.
- `rsvp_bus.dfy` (`RsvpBus`): the in-process publish/subscribe registry, as a class whose `channels` map the methods update.
- `csv_template.dfy` (`CsvTemplate`): the downloadable CSV template (quoting, joining, byte-order mark), and a reader showing that the text reads back as the rows.
- `guest_list.dfy` (`GuestList`): the guest table's search and status filter, and the live `rsvp_update` patch.
- `strings.dfy` (`Strings`), `options.dfy` (`Options`): the JavaScript string built-ins the code relies on (`startsWith`, `endsWith`, `includes`, `trim`, ASCII case mapping), and an option type for `null`/`undefined`.

`statusFromPayload` (src/app/api/wa/webhook/route.ts:6-11) and `canonStatus`
(src/server/rsvp-update.ts:5-10) have the same body. Both are modelled by the
one function `Rsvp.ReplyStatus`.

## Model

| member | source | states |
|---|---|---|
| `Strings.StartsWith` | src/lib/phone.ts:4-5 | `startsWith`: the prefix test, written out on the characters |
| `Strings.EndsWith` | src/server/rsvp-update.ts:22 | `endsWith`: the suffix test, written out on the characters |
| `Strings.Contains` | src/components/EventGuestsList.tsx:58 | `includes`: the term occurs in the text; `ContainsIffOccurs` states this in both directions |
| `Strings.Trim` | src/lib/guest-import.ts:43 | `trim`: the ECMAScript whitespace removed at both ends; `TrimIsSlice`, `TrimIdempotent` and `TrimAllWhitespace` state what the result is |
| `Strings.Lower` | src/components/EventGuestsList.tsx:53 | `toLowerCase` on the ASCII letters, keeping the length; `CaseMappingsAbsorb`, `CaseMappingConcat` and `TrimCaseMapping` relate it to `Upper`, to concatenation and to `Trim` |
| `Strings.Upper` | src/app/api/wa/webhook/route.ts:7 | `toUpperCase` on the ASCII letters, keeping the length; related to `Lower`, concatenation and `Trim` by the same lemmas |
| `Strings.ContainsIffOccurs` | src/components/EventGuestsList.tsx:58 | `includes` holds exactly when the term occurs at some position of the text |
| `Strings.ContainsInContext` | src/components/EventGuestsList.tsx:57-58 | text added on either side of a string keeps every occurrence in it |
| `Strings.TrimIsSlice` | src/lib/guest-import.ts:43 | `trim` yields the slice left after removing whitespace at both ends; the result neither starts nor ends with whitespace |
| `Strings.TrimIdempotent` | src/lib/guest-import.ts:43 | trimming a trimmed string changes nothing |
| `Strings.TrimAllWhitespace` | src/components/EventGuestsList.tsx:53 | a string of whitespace only trims to the empty string |
| `Strings.TrimCaseMapping` | src/components/EventGuestsList.tsx:53 | trimming and case mapping commute |
| `Strings.CaseMappingsAbsorb` | src/server/rsvp-update.ts:6 | upper-casing undoes any earlier lower-casing and vice versa; both are idempotent |
| `Strings.CaseMappingConcat` | src/components/EventGuestsList.tsx:57 | case mapping distributes over concatenation |
| `Phone.DigitsOf` | src/lib/phone.ts:3 | the result is decimal digits only and no longer than the input |
| `Phone.DigitsOfDigits` | src/lib/phone.ts:3 | a digit string is its own digits |
| `Phone.DigitsOfConcat` | src/lib/phone.ts:3 | stripping non-digits distributes over concatenation |
| `Phone.CanonPhone` | src/lib/phone.ts:2-7 | the canonical number consists of decimal digits only |
| `Phone.CanonPhoneCases` | src/lib/phone.ts:4-6 | 10 digits starting with 0 become 972 plus the last 9; 9 digits starting with 5 get 972 in front; any other digit string is returned as it is |
| `Phone.CanonPhoneIgnoresNonDigits` | src/lib/phone.ts:3 | `canonPhone(s) == canonPhone(digitsOf(s))` |
| `Phone.CanonPhoneKeepsInternational` | src/lib/phone.ts:6 | a digit string starting with 972 is kept unchanged |
| `Phone.CanonPhoneIdempotent` | src/lib/phone.ts:2-7 | `canonPhone(canonPhone(x)) == canonPhone(x)` |
| `Phone.CanonPhoneMobileForms` | src/lib/phone.ts:4-6 | `05X…`, `5X…`, `9725X…` and `+9725X…` all canonicalise to `9725X…` |
| `Phone.SamePhone` | src/lib/phone.ts:9-12 | a true result needs both numbers present and non-empty |
| `Phone.SamePhoneSymmetric` | src/lib/phone.ts:9-12 | `samePhone(a, b) == samePhone(b, a)` |
| `Phone.SamePhoneTransitive` | src/lib/phone.ts:9-12 | `samePhone` is transitive |
| `Phone.SamePhoneLocalAndInternational` | src/lib/phone.ts:9-12 | the local `05X…` form and the `+9725X…` form are the same phone |
| `Phone.SamePhoneDigitless` | src/lib/phone.ts:10-11 | any two non-empty strings without digits count as the same phone |
| `WhatsApp.FormatPhone` | src/lib/whatsapp.ts:42-49 | the deep-link number is digits only and always starts with 972 |
| `WhatsApp.FormatPhoneCases` | src/lib/whatsapp.ts:45-49 | a leading 0 is replaced by 972, a 972 number is kept, and 972 is put in front of anything else |
| `WhatsApp.FormatPhoneEmpty` | src/lib/whatsapp.ts:42-49 | any input without a digit, the empty string included, still yields `972` |
| `WhatsApp.FormatPhoneIdempotent` | src/lib/whatsapp.ts:42-49 | formatting a formatted number changes nothing |
| `WhatsApp.FormatPhoneAgreesWithCanon` | src/lib/whatsapp.ts:42-49 | where `canonPhone` gives a 972 number, the deep-link formatter gives the same number |
| `WhatsApp.FormatPhoneDiffersFromCanon` | src/lib/whatsapp.ts:45-49 | the two normalisers differ on a short local number such as `0123` |
| `WhatsApp.DeepLink` | src/lib/whatsapp.ts:37-56 | `createWhatsAppDeepLink`: `https://wa.me/`, the formatted phone, `?text=` and the encoded message; `DeepLinkRoundTrip` states that the link reads back as those two parts |
| `WhatsApp.DeepLinkRoundTrip` | src/lib/whatsapp.ts:52-55 | the link reads back as exactly the formatted phone and the encoded message |
| `WhatsApp.VenueSuffix` | src/lib/whatsapp.ts:27 | the venue part is empty exactly when the venue is missing or empty, and is otherwise ` ב-` plus the venue |
| `WhatsApp.InvitationMessage` | src/lib/whatsapp.ts:15-30 | `generateWhatsAppMessage`: greeting, guest name, event name, date, venue part and question, in that order; `InvitationNamesVenue` and `InvitationWithoutVenue` state what the venue changes |
| `WhatsApp.InvitationNamesVenue` | src/lib/whatsapp.ts:27-29 | a given venue appears in the invitation after ` ב-` |
| `WhatsApp.InvitationWithoutVenue` | src/lib/whatsapp.ts:27-29 | a missing and an empty venue give the same invitation, with no venue part |
| `GuestImport.CanonicalHeader` | src/lib/guest-import.ts:42 | `map[k]`, else `map[k.toLowerCase()]`, else `k`; `CanonicalHeaderRange`, `CanonicalHeaderIdempotent`, `UnknownHeaderKept` and `HebrewHeaders` state what it yields |
| `GuestImport.CellValue` | src/lib/guest-import.ts:43 | `(v ?? "").toString().trim()`: a missing cell becomes `""`; `NormalizedValuesTrimmed` states that every value is trimmed |
| `GuestImport.Canonicalised` | src/lib/guest-import.ts:41-43 | each entry of the row, in order, with its header mapped and its cell trimmed; one pair per entry |
| `GuestImport.Assigned` | src/lib/guest-import.ts:40-44 | the object built by assigning `out[key] = value` pair after pair, starting empty |
| `GuestImport.Normalized` | src/lib/guest-import.ts:17-46 | the object `normalizeHeaders` returns; `NormalizedKeys`, `NormalizedLastWins` and `NormalizedValuesTrimmed` state its keys and values |
| `GuestImport.AliasTableShape` | src/lib/guest-import.ts:18-39 | every alias names a schema key, and every schema key is its own alias |
| `GuestImport.CanonicalHeaderRange` | src/lib/guest-import.ts:42 | a header maps to a schema key or is kept as it is |
| `GuestImport.CanonicalHeaderIdempotent` | src/lib/guest-import.ts:42 | mapping a mapped header changes nothing |
| `GuestImport.UnknownHeaderKept` | src/lib/guest-import.ts:42 | a header that matches no alias, even lower-cased, is kept verbatim |
| `GuestImport.HebrewHeaders` | src/lib/guest-import.ts:31-38 | each Hebrew header maps to its English schema key |
| `GuestImport.NormalizeHeaders` | src/lib/guest-import.ts:17-46 | the loop builds exactly the object of the header/value assignments, in entry order |
| `GuestImport.NormalizedKeys` | src/lib/guest-import.ts:41-44 | the keys of the result are exactly the mapped headers of the input |
| `GuestImport.NormalizedLastWins` | src/lib/guest-import.ts:41-44 | the value under a key comes from the last entry whose header maps to it |
| `GuestImport.NormalizedValuesTrimmed` | src/lib/guest-import.ts:43 | every value of the result is already trimmed |
| `GuestImport.ParseRow` | src/lib/guest-import.ts:4-12 | `RowInput.safeParse` on a normalised row; `ParseRowRequiredKeys` and `ParseRowKeepsValues` state when it fails and what it carries |
| `GuestImport.ParseRowRequiredKeys` | src/lib/guest-import.ts:4-12 | the schema check fails exactly when `phone` or `guest_full_name` is missing, and then reports exactly the missing ones |
| `GuestImport.ParseRowKeepsValues` | src/lib/guest-import.ts:4-12 | a row that passes carries every normalised value unchanged: the two required fields as they are, the five optional ones present exactly when their key is |
| `GuestImport.PhonePatternOk` | src/lib/guest-import.ts:81 | `/^\d{9,15}$/`: 9 to 15 characters, all decimal digits |
| `GuestImport.FailedRow` | src/lib/guest-import.ts:62-75 | the row pushed on a schema failure: inactive, with the failure, every field the normalised value or `""` |
| `GuestImport.ParsedRow` | src/lib/guest-import.ts:76-92 | the row pushed on a passing schema check: canonical phones, active exactly when the household phone passes the pattern, else the bad-phone error |
| `GuestImport.PreviewOf` | src/lib/guest-import.ts:60-93 | the preview row of one normalised row; `PreviewOfParsed` and `PreviewOfInvalid` state its two cases |
| `GuestImport.SchemaCheck` | src/lib/guest-import.ts:60-61 | the schema check of one raw row after header normalisation |
| `GuestImport.ErrorsOf` | src/lib/guest-import.ts:62-64 | one error per failed check, numbered `i + 2`, in row order; `ErrorsOfBounded` and `ErrorsOfIncreasing` state its size and order |
| `GuestImport.ErrorList` | src/lib/guest-import.ts:56-96 | the `errors` list of `toPreviewRows`; `ErrorListNamesFailedRows` and `ErrorListComplete` state that it names exactly the failed rows |
| `GuestImport.PreviewRowOf` | src/lib/guest-import.ts:60-93 | one step of the `forEach` computes exactly the schema check and the preview row of its raw row; what that row holds is stated by `PreviewOfParsed` and `PreviewOfInvalid` |
| `GuestImport.ToPreviewRows` | src/lib/guest-import.ts:56-96 | one preview row per input row, in order, and the error list of the failed schema checks |
| `GuestImport.PreviewOfParsed` | src/lib/guest-import.ts:76-92 | a row that passes the schema check previews with the canonical household phone, and is active and without error exactly when that phone has 9 to 15 digits, else carries the bad-phone error; the guest phone is canonicalised, or `""` when absent or empty; the other fields are the normalised values or `""` |
| `GuestImport.PreviewOfInvalid` | src/lib/guest-import.ts:62-75 | a row failing the schema check previews as inactive, with that failure as its error |
| `GuestImport.ErrorsOfBounded` | src/lib/guest-import.ts:64 | there are never more errors than rows |
| `GuestImport.ErrorsOfIncreasing` | src/lib/guest-import.ts:59-94 | errors appear in row order, each row at most once |
| `GuestImport.ErrorListNamesFailedRows` | src/lib/guest-import.ts:62-75 | every error names, as `idx` (row number, header row being 1), a data row that previews as inactive with that error |
| `GuestImport.ErrorListComplete` | src/lib/guest-import.ts:64 | every row failing the schema check has an error with its row number |
| `Rsvp.SaysYes` | src/app/api/wa/webhook/route.ts:8 | the upper-cased reply contains `YES` or מאשר |
| `Rsvp.SaysMaybe` | src/app/api/wa/webhook/route.ts:9 | the upper-cased reply contains `MAYBE` or אולי |
| `Rsvp.ReplyStatus` | src/app/api/wa/webhook/route.ts:6-11 | `statusFromPayload` and `canonStatus`; `ReplyStatusPriority`, `ReplyStatusEmpty`, `ReplyStatusIgnoresCase` and `ReplyStatusInContext` state its result |
| `Rsvp.ReplyStatusPriority` | src/app/api/wa/webhook/route.ts:6-11 | YES when the upper-cased reply contains YES or מאשר; else MAYBE when it contains MAYBE or אולי; else NO; never PENDING |
| `Rsvp.ReplyStatusEmpty` | src/server/rsvp-update.ts:5-10 | an empty reply is a NO |
| `Rsvp.ReplyStatusIgnoresCase` | src/server/rsvp-update.ts:6 | the status does not depend on the case of the reply |
| `Rsvp.ReplyStatusInContext` | src/app/api/wa/webhook/route.ts:8-9 | a YES stays YES with text around it, and a MAYBE never becomes NO |
| `Rsvp.ReplyStatusYesExample` | src/app/api/wa/webhook/route.ts:8 | `yes` is YES |
| `Rsvp.ReplyStatusMaybeExample` | src/app/api/wa/webhook/route.ts:9 | `Maybe` is MAYBE |
| `Rsvp.ReplyStatusNoExample` | src/app/api/wa/webhook/route.ts:10 | `no` is NO |
| `Rsvp.ReplyStatusHebrewMaybeExample` | src/app/api/wa/webhook/route.ts:9 | אולי is MAYBE |
| `Rsvp.UpdateRecord` | src/app/api/wa/webhook/route.ts:81-82 | the `data` of the guest update for a status; `UpdateRecordFields` states its fields |
| `Rsvp.UpdateRecordFields` | src/server/rsvp-update.ts:30-31 | the update sets `rsvpStatus`, and on a NO also clears `tableId` and `seatNumber`, and nothing else |
| `Webhook.EntryMessages` | src/app/api/wa/webhook/route.ts:39-40 | the messages of an entry's first change, or none |
| `Webhook.RawPayload` | src/app/api/wa/webhook/route.ts:43-52 | the reply text of a message, or nothing for a skipped one; `RawPayloadSkips`, `RawPayloadInteractive` and `RawPayloadButton` state each case |
| `Webhook.RawPayloadSkips` | src/app/api/wa/webhook/route.ts:45-52 | only interactive button replies and buttons are read; every other message is skipped |
| `Webhook.RawPayloadInteractive` | src/app/api/wa/webhook/route.ts:45-47 | the reply text is the first present field of `payload`, `id`, `title`, else empty |
| `Webhook.RawPayloadButton` | src/app/api/wa/webhook/route.ts:48-49 | the reply text is the button's `payload`, else its `text`, else empty |
| `Webhook.EmptyPayloadHidesId` | src/app/api/wa/webhook/route.ts:47 | `??` falls through only on a missing field: an empty payload hides a YES in the id, so the reply is a NO |
| `Webhook.PrimaryGuestId` | src/app/api/wa/webhook/route.ts:77 | the guest of the first PRIMARY link; `PrimaryGuestIdFirst` states that it is the first and that none means no PRIMARY link |
| `Webhook.PrimaryGuestIdFirst` | src/app/api/wa/webhook/route.ts:77 | `find` yields the first PRIMARY link's guest, and nothing when there is none |
| `Webhook.Recipients` | src/app/api/wa/webhook/route.ts:76-78 | `toUpdate` never names more guests than the contact has links |
| `Webhook.RecipientsByScope` | src/app/api/wa/webhook/route.ts:76-78 | ALL_LINKED updates every linked guest in link order; otherwise just the PRIMARY guest if its id is non-empty; every recipient is linked |
| `Webhook.NoPrimaryNoRecipients` | src/app/api/wa/webhook/route.ts:77-78 | a PRIMARY-only contact without a PRIMARY link updates nobody |
| `Webhook.ReplyingContact` | src/app/api/wa/webhook/route.ts:57-71 | the last invite's contact, else the latest contact with that number |
| `Webhook.Sender` | src/app/api/wa/webhook/route.ts:42 | the canonical number of `msg.from`, empty when missing |
| `Webhook.MessageActions` | src/app/api/wa/webhook/route.ts:42-95 | the effects of one message; `IgnoredMessages`, `ReplyUpdatesRecipients`, `InviteMarkedLast` and `MessageActionsWellPaired` state them |
| `Webhook.MessagesActions` | src/app/api/wa/webhook/route.ts:41-96 | the effects of a message list, message after message; `MessagesActionsWellPaired` states the pairing they keep |
| `Webhook.WebhookActions` | src/app/api/wa/webhook/route.ts:37-97 | the effects of the request, entry after entry; `WebhookActionsWellPaired` states the pairing they keep |
| `Webhook.HandleMessage` | src/app/api/wa/webhook/route.ts:42-95 | the inner loop body yields exactly the effects of one message |
| `Webhook.HandleMessages` | src/app/api/wa/webhook/route.ts:41-96 | the inner loop yields the effects of the messages, one after the other |
| `Webhook.HandleWebhook` | src/app/api/wa/webhook/route.ts:34-102 | `POST` yields the effects of the entries' first-change messages, in order |
| `Webhook.MessageActionsWellPaired` | src/app/api/wa/webhook/route.ts:80-90 | one message never updates an empty id list, and its publication follows the update with the same guests and status |
| `Webhook.MessagesActionsWellPaired` | src/app/api/wa/webhook/route.ts:41-96 | the same holds for a whole message list |
| `Webhook.WebhookActionsWellPaired` | src/app/api/wa/webhook/route.ts:37-97 | the same holds across the whole request |
| `Webhook.IgnoredMessages` | src/app/api/wa/webhook/route.ts:50-73 | a message that is not a button reply, or that comes from an unknown number, has no effect |
| `Webhook.ReplyUpdatesRecipients` | src/app/api/wa/webhook/route.ts:80-90 | a reply from a known contact with recipients updates them with the reply's record, then publishes them on the contact's event channel |
| `Webhook.InviteMarkedLast` | src/app/api/wa/webhook/route.ts:93-95 | the invite is marked read exactly when the number has one, as the last effect of the message |
| `RsvpUpdate.Last9` | src/server/rsvp-update.ts:22 | `slice(-9)` is a suffix of at most 9 characters, all of a shorter string |
| `RsvpUpdate.PhoneMatches` | src/server/rsvp-update.ts:19-23 | the `OR` of the lookup: the stored number is the canonical caller number, it with `+`, or ends with its last nine characters |
| `RsvpUpdate.FindHousehold` | src/server/rsvp-update.ts:17-26 | `household.findFirst` over the households in scan order; `FindHouseholdFirst` states that it is the first match |
| `RsvpUpdate.UpdateRsvpByPhone` | src/server/rsvp-update.ts:13-55 | `updateRsvpByPhone`: the found flag and the effects; `UpdateRsvpFound` and `UpdateRsvpEffects` state them |
| `RsvpUpdate.FindHouseholdFirst` | src/server/rsvp-update.ts:17-26 | the lookup finds a household exactly when one matches, and then the first one |
| `RsvpUpdate.UpdateRsvpFound` | src/server/rsvp-update.ts:28 | the result is true exactly when some household matches the canonical caller number; with no match nothing happens |
| `RsvpUpdate.UpdateRsvpEffects` | src/server/rsvp-update.ts:30-54 | on a match, the first matching household's guests get the reply's record first; its invite, when it has one, is marked read next; the publication on its event channel, naming the household, its guests and the status, comes last |
| `RsvpUpdate.MatchesLocalAndInternational` | src/server/rsvp-update.ts:19-23 | a stored 972 number, with or without `+`, matches a caller writing the local or the international form |
| `RsvpUpdate.DigitlessCallerMatchesAny` | src/server/rsvp-update.ts:22 | a caller number without digits matches every household that has a WhatsApp number |
| `Middleware.SetParam` | src/middleware.ts:47 | `searchParams.set`: the first pair with the name takes the value and later ones go, or the pair is appended; `SetParamFacts` states the result |
| `Middleware.SetParamFacts` | src/middleware.ts:47 | after `searchParams.set`, the name has exactly one pair, holding the new value, and every other pair stays in order |
| `Middleware.IsPublic` | src/middleware.ts:24-33 | the path starts with one of the seven public prefixes or is `/` |
| `Middleware.IsProtected` | src/middleware.ts:38-42 | the path is under `/dashboard`, `/events` except `/events/new`, or `/api/events` |
| `Middleware.Decide` | src/middleware.ts:5-53 | `middleware(req)`; `DecideRedirectsExactly`, `RedirectTarget` and `NoRedirectLoop` state when and where it redirects |
| `Middleware.DecideRedirectsExactly` | src/middleware.ts:24-52 | a request is redirected exactly when its path is protected, not public, and there is no token |
| `Middleware.RedirectTarget` | src/middleware.ts:44-48 | the redirect goes to `/login`, carries the original path as its only `callbackUrl`, and keeps the other query parameters |
| `Middleware.NoRedirectLoop` | src/middleware.ts:24-35 | the login page is public, so a redirect never leads to another redirect |
| `Middleware.NotPublicBySecondChar` | src/middleware.ts:24-33 | a path whose second character is none of `l s f r a` is not public |
| `Middleware.EventPageExample` | src/middleware.ts:40 | without a token, `/events/abc` is redirected |
| `Middleware.NewEventPageExample` | src/middleware.ts:40 | without a token, `/events/new` passes |
| `Middleware.PublicPagesExample` | src/middleware.ts:30-32 | without a token, the RSVP API and `/` pass |
| `RsvpBus.Add` | src/server/rsvp-bus.ts:6 | `set.add`: a new member at the end, a present one left in place; `AddFacts` states the result |
| `RsvpBus.Remove` | src/server/rsvp-bus.ts:8 | `set.delete`: the other members in order; `RemoveFacts` states the result |
| `RsvpBus.AddFacts` | src/server/rsvp-bus.ts:6 | `Set.add` keeps the set duplicate-free, adds exactly `cb`, and is idempotent |
| `RsvpBus.RemoveFacts` | src/server/rsvp-bus.ts:8 | `Set.delete` removes exactly `cb` and keeps the set duplicate-free |
| `RsvpBus.RemoveAfterAdd` | src/server/rsvp-bus.ts:4-9 | unsubscribing a new subscription restores the set |
| `RsvpBus.Bus.constructor` | src/server/rsvp-bus.ts:2 | the registry starts empty |
| `RsvpBus.Bus.Subscribe` | src/server/rsvp-bus.ts:4-9 | the channel, created if missing, gets `cb` added and nothing else changes; the handle names the channel and `cb` |
| `RsvpBus.Bus.Cancel` | src/server/rsvp-bus.ts:8 | calling the handle deletes `cb` from its channel only |
| `RsvpBus.Bus.Subscribers` | src/server/rsvp-bus.ts:12-13 | `channels.get(eventId)`, with a missing channel as no subscribers |
| `RsvpBus.Bus.Publish` | src/server/rsvp-bus.ts:11-15 | every subscriber of the channel is called once with the data, in subscription order, and no one else |
| `CsvTemplate.Escape` | src/app/api/templates/guests.csv/route.ts:10 | `replace(/"/g, '""')`: every quote doubled; `ParseQuotedEscape` and `EscapeInjective` state that it can be undone |
| `CsvTemplate.QuoteField` | src/app/api/templates/guests.csv/route.ts:10 | the escaped field between two quotes |
| `CsvTemplate.RowText` | src/app/api/templates/guests.csv/route.ts:10 | the quoted fields joined with `,`; `ParseFieldsRow` states that it reads back |
| `CsvTemplate.CsvText` | src/app/api/templates/guests.csv/route.ts:10 | the row texts joined with a line feed; `ParseRowsCsv` states that it reads back |
| `CsvTemplate.TemplateBody` | src/app/api/templates/guests.csv/route.ts:4-11 | the byte-order mark and the template text; `TemplateBodyShape` states what it holds |
| `CsvTemplate.ParseQuotedEscape` | src/app/api/templates/guests.csv/route.ts:10 | un-doubling the quotes of an escaped field gives back the field |
| `CsvTemplate.EscapeInjective` | src/app/api/templates/guests.csv/route.ts:10 | different fields are quoted differently |
| `CsvTemplate.ParseFieldsRow` | src/app/api/templates/guests.csv/route.ts:10 | a quoted, comma-joined row reads back as its fields |
| `CsvTemplate.ParseRowsCsv` | src/app/api/templates/guests.csv/route.ts:10 | the line-joined text reads back as exactly its rows, in order |
| `CsvTemplate.BodyShape` | src/app/api/templates/guests.csv/route.ts:10-11 | the BOM-prefixed text starts with the mark and the rest reads back as the rows |
| `CsvTemplate.TemplateRowsNonEmpty` | src/app/api/templates/guests.csv/route.ts:4-9 | the template has four rows of six fields |
| `CsvTemplate.TemplateBodyShape` | src/app/api/templates/guests.csv/route.ts:3-18 | the body is the byte-order mark followed by a text that reads back as the template rows, header row first |
| `CsvTemplate.TemplateHeadersImport` | src/app/api/templates/guests.csv/route.ts:5 | the import recognises every header of the template as a schema key |
| `GuestList.SearchTerm` | src/components/EventGuestsList.tsx:53 | `q.trim().toLowerCase()` |
| `GuestList.SearchText` | src/components/EventGuestsList.tsx:57 | the six searched fields joined by spaces, missing ones as `""`, lower-cased; `FieldMatchShown` and `MealNotSearched` state what it covers |
| `GuestList.StatusPasses` | src/components/EventGuestsList.tsx:55 | the filter is ALL or the guest has its status |
| `GuestList.Keeps` | src/components/EventGuestsList.tsx:54-59 | the `filter` callback: the status test, then an empty term keeps, else the term is searched |
| `GuestList.FilterSeq` | src/components/EventGuestsList.tsx:54 | `Array.prototype.filter`; `FilterPicks` and `FilterMembers` state that it keeps exactly the passing elements in order |
| `GuestList.Filtered` | src/components/EventGuestsList.tsx:52-60 | `filtered`; `FilteredPicks`, `FilteredMembers`, `FilteredStatus`, `BlankQueryKeepsStatus` and `QueryCaseIgnored` state what it shows |
| `GuestList.FilteredPicks` | src/components/EventGuestsList.tsx:52-60 | the shown guests are exactly the kept guests, in list order: picked at increasing positions, and every kept guest picked |
| `GuestList.FilteredMembers` | src/components/EventGuestsList.tsx:54-59 | a guest is shown exactly when it is in the list and passes both the status filter and the search |
| `GuestList.FilteredStatus` | src/components/EventGuestsList.tsx:55 | with a filter other than ALL, only guests of that status are shown |
| `GuestList.BlankQueryKeepsStatus` | src/components/EventGuestsList.tsx:53-56 | an empty or whitespace query leaves the status filter alone to decide; under ALL the whole list is shown |
| `GuestList.QueryCaseIgnored` | src/components/EventGuestsList.tsx:53 | upper- or lower-casing the query does not change what is shown |
| `GuestList.FieldMatchShown` | src/components/EventGuestsList.tsx:57-58 | a term found, in any case, in the name, household, group, table, phone or relation shows a status-passing guest |
| `GuestList.MealNotSearched` | src/components/EventGuestsList.tsx:57 | the meal is not searched: changing it changes nothing |
| `GuestList.ApplyMessage` | src/components/EventGuestsList.tsx:44-45 | the `onmessage` patch; `ApplyMessageEffects`, `OtherMessageIgnored`, `ApplyMessageIdempotent`, `LaterUpdateWins` and `DisjointUpdatesCommute` state its effect |
| `GuestList.ApplyMessageEffects` | src/components/EventGuestsList.tsx:44-45 | the patch keeps length and order; a guest named by an update takes its status, and every other field and guest stays |
| `GuestList.OtherMessageIgnored` | src/components/EventGuestsList.tsx:44 | a message of another type leaves the list as it is |
| `GuestList.ApplyMessageIdempotent` | src/components/EventGuestsList.tsx:45 | receiving the same update twice is the same as receiving it once |
| `GuestList.LaterUpdateWins` | src/components/EventGuestsList.tsx:45 | a later update to the same guests overrides an earlier one |
| `GuestList.DisjointUpdatesCommute` | src/components/EventGuestsList.tsx:45 | updates to disjoint guests can arrive in either order |

## Left out

- The auto-seating allocator is not modelled. Its route is not among the files modelled here; the button that calls it is only a fetch wrapper.
- Database access (Prisma `findFirst`, `updateMany`, `update`) is not executed. Looked-up records are inputs (`Webhook.Directory`, the household sequence of `RsvpUpdate`), and writes are the returned `Rsvp.Action`s. Ordering by `lastSentAt` or by id is the lookup's concern.
- A failing database write is not modelled: the aborting `try`/`catch`, and the ignored failure of `invite.update(...).catch(() => {})`.
- The webhook `GET` verification reads an environment variable. The request, the response and the JSON parsing are not modelled; the body is the `Entry` sequence.
- The validation library's issue messages are not modelled. A schema failure carries the missing keys instead of the message text.
- `Strings.Lower`: models only the ASCII letters of `toLowerCase`. The Kelvin sign is the only non-ASCII character that lower-cases to an ASCII letter alone (`k`), and no header alias contains `k`; `İ` lower-cases to `i` followed by a combining dot, which no alias contains either. In the guest search, such characters in the text or the query can match in the source where they do not in the model.
- `Strings.Upper`: models only the ASCII letters of `toUpperCase`. The long s `ſ` upper-cases to `S`, the sharp s `ß` to `SS`, and the ligatures `ﬅ` and `ﬆ` to `ST`, so a reply such as `yeſ` or `yeß` is YES in the source and NO in the model.
- Headers that collide with inherited object members (`constructor`, `__proto__`) are not modelled, and neither is the numeric-key ordering of `Object.entries`. A row is a plain sequence of header/cell pairs.
- `String(...)` and `toString()` of non-string cells are not modelled. A cell is absent or already text.
- `toLocaleDateString` is not modelled. The formatted date is a parameter of `WhatsApp.InvitationMessage`.
- `encodeURIComponent` is not modelled. It is a function parameter of `WhatsApp.DeepLink`.
- `window.open` is not modelled.
- Session-token lookup is an input to `Middleware.Decide`. The middleware's debug logging and its `matcher` configuration are not modelled.
- `RsvpBus.Bus.Publish` returns the calls it makes. It does not run the callbacks, so a callback that subscribes or unsubscribes while being called is not modelled.
- The React state, `EventSource`, `fetch` and rendering of the guest table are not modelled. The list, the query, the filter and each stream message are inputs; a message that fails to parse is dropped by the stream's `try`/`catch`.
- The XLSX template and the response headers of the CSV route are not modelled.
