/**
 * The WhatsApp webhook's POST handler (src/app/api/wa/webhook/route.ts):
 * every message of the first change of every entry that is a button reply
 * is mapped to an RSVP status, the replying contact is looked up by its
 * canonical phone number, the guests the contact speaks for are updated and
 * an `rsvp_update` event is published, and the contact's last invite is
 * marked as read. The database lookups are parameters; the database writes
 * and the publication are the `Action`s the handler returns, in order.
 */
module Webhook {
  import opened Strings
  import opened Options
  import opened Rsvp
  import Phone

  /** `msg.interactive.button_reply`. */
  datatype ButtonReply = ButtonReply(payload: Option<string>, id: Option<string>, title: Option<string>)

  /** `msg.button`. */
  datatype ButtonField = ButtonField(payload: Option<string>, text: Option<string>)

  /** One incoming message; `buttonReply` is `msg.interactive?.button_reply`
      and `from` is `None` when the field is missing or empty. */
  datatype Message = Message(from: Option<string>, msgType: string, buttonReply: Option<ButtonReply>, button: Option<ButtonField>)

  /** `change.value`; a missing `messages` field is the empty sequence. */
  datatype ChangeValue = ChangeValue(messages: seq<Message>)

  datatype Change = Change(value: Option<ChangeValue>)

  /** One element of `data.entry`; a missing `changes` field is the empty sequence. */
  datatype Entry = Entry(changes: seq<Change>)

  // ---------------------------------------------------------------------
  // Contacts

  datatype Scope = AllLinked | PrimaryOnly

  datatype Role = Primary | Other

  datatype GuestLink = GuestLink(role: Role, guestId: string)

  /** A contact as looked up, with its guest links in order. */
  datatype Contact = Contact(eventId: string, scope: Scope, guestLinks: seq<GuestLink>)

  datatype Invite = Invite(id: string, contact: Contact)

  /** The two lookups by canonical phone number: the most recently sent
      invite, and the most recently created contact. */
  datatype Directory = Directory(lastInvite: string -> Option<Invite>, latestContact: string -> Option<Contact>)

  // ---------------------------------------------------------------------
  // One message

  /** `msg.messages` of the first change of an entry, or nothing. */
  function EntryMessages(entry: Entry): seq<Message> {
    if |entry.changes| > 0 && entry.changes[0].value.Some? then entry.changes[0].value.value.messages else []
  }

  /** The reply text of a message: `payload ?? id ?? title ?? ""` for an
      interactive button reply, `payload ?? text ?? ""` for a button; `None`
      for every other message, which the handler skips. */
  function RawPayload(msg: Message): Option<string> {
    if msg.msgType == "interactive" && msg.buttonReply.Some? then
      var br := msg.buttonReply.value;
      Some(OrElse(OrElse(br.payload, br.id), br.title).GetOr(""))
    else if msg.msgType == "button" && msg.button.Some? then
      Some(OrElse(msg.button.value.payload, msg.button.value.text).GetOr(""))
    else
      None
  }

  /** Only interactive button replies and buttons are read. */
  lemma RawPayloadSkips(msg: Message)
    ensures RawPayload(msg).None? <==>
              !(msg.msgType == "interactive" && msg.buttonReply.Some?) && !(msg.msgType == "button" && msg.button.Some?)
  {}

  /** The first present field of a button reply is the reply text; when none
      is present the text is empty. */
  lemma RawPayloadInteractive(from: Option<string>, br: ButtonReply, button: Option<ButtonField>)
    ensures var raw := RawPayload(Message(from, "interactive", Some(br), button));
            && (br.payload.Some? ==> raw == br.payload)
            && (br.payload.None? && br.id.Some? ==> raw == br.id)
            && (br.payload.None? && br.id.None? && br.title.Some? ==> raw == br.title)
            && (br.payload.None? && br.id.None? && br.title.None? ==> raw == Some(""))
  {}

  /** The same for a button: its payload, else its text. */
  lemma RawPayloadButton(from: Option<string>, bt: ButtonField, reply: Option<ButtonReply>)
    ensures var raw := RawPayload(Message(from, "button", reply, Some(bt)));
            && (bt.payload.Some? ==> raw == bt.payload)
            && (bt.payload.None? && bt.text.Some? ==> raw == bt.text)
            && (bt.payload.None? && bt.text.None? ==> raw == Some(""))
  {}

  /** `??` falls through only on a missing field: an empty payload hides a YES
      in the id, and the reply counts as a NO. */
  lemma EmptyPayloadHidesId(from: Option<string>)
    ensures RawPayload(Message(from, "interactive", Some(ButtonReply(Some(""), Some("yes"), None)), None)) == Some("")
    ensures ReplyStatus(RawPayload(Message(from, "interactive", Some(ButtonReply(Some(""), Some("yes"), None)), None)).value) == No
  {
    ReplyStatusEmpty();
  }

  /** `contact.guestLinks.find(gl => gl.role === "PRIMARY")?.guest.id` */
  function PrimaryGuestId(links: seq<GuestLink>): (r: Option<string>)
    decreases |links|
  {
    if links == [] then None
    else if links[0].role == Primary then Some(links[0].guestId)
    else PrimaryGuestId(links[1..])
  }

  /** `find` returns the first PRIMARY link, and nothing when there is none. */
  lemma {:induction false} PrimaryGuestIdFirst(links: seq<GuestLink>)
    ensures PrimaryGuestId(links).None? <==> forall i :: 0 <= i < |links| ==> links[i].role != Primary
    ensures PrimaryGuestId(links).Some? ==>
              exists i :: && 0 <= i < |links| && links[i].role == Primary
                          && PrimaryGuestId(links) == Some(links[i].guestId)
                          && forall j :: 0 <= j < i ==> links[j].role != Primary
    decreases |links|
  {
    if links != [] && links[0].role != Primary {
      PrimaryGuestIdFirst(links[1..]);
      if PrimaryGuestId(links).Some? {
        var i :| && 0 <= i < |links[1..]| && links[1..][i].role == Primary
                 && PrimaryGuestId(links[1..]) == Some(links[1..][i].guestId)
                 && forall j :: 0 <= j < i ==> links[1..][j].role != Primary;
        assert links[i + 1] == links[1..][i];
        forall j | 0 <= j < i + 1 ensures links[j].role != Primary {
          if j > 0 {
            assert links[j] == links[1..][j - 1];
          }
        }
      }
      forall i | 0 <= i < |links[1..]| ensures links[1..][i] == links[i + 1] {}
    } else if links != [] {
      assert links[0].role == Primary;
    }
  }

  /** `toUpdate`: every linked guest for an ALL_LINKED contact; otherwise the
      PRIMARY guest if it has a (non-empty) id, or nobody. */
  function Recipients(c: Contact): (r: seq<string>)
    ensures |r| <= |c.guestLinks|
  {
    PrimaryGuestIdFirst(c.guestLinks);
    if c.scope == AllLinked then seq(|c.guestLinks|, i requires 0 <= i < |c.guestLinks| => c.guestLinks[i].guestId)
    else
      var p := PrimaryGuestId(c.guestLinks);
      if p.Some? && p.value != "" then [p.value] else []
  }

  /** Who is updated, by scope: all linked guests in link order, or at most
      the PRIMARY guest; every recipient is a linked guest. */
  lemma RecipientsByScope(c: Contact)
    ensures c.scope == AllLinked ==>
              |Recipients(c)| == |c.guestLinks| && forall i :: 0 <= i < |c.guestLinks| ==> Recipients(c)[i] == c.guestLinks[i].guestId
    ensures c.scope == PrimaryOnly ==>
              Recipients(c) == (if PrimaryGuestId(c.guestLinks).Some? && PrimaryGuestId(c.guestLinks).value != ""
                                then [PrimaryGuestId(c.guestLinks).value] else [])
    ensures forall id :: id in Recipients(c) ==> exists i :: 0 <= i < |c.guestLinks| && c.guestLinks[i].guestId == id
  {
    PrimaryGuestIdFirst(c.guestLinks);
    if c.scope == AllLinked {
      forall id | id in Recipients(c) ensures exists i :: 0 <= i < |c.guestLinks| && c.guestLinks[i].guestId == id {
        var i :| 0 <= i < |Recipients(c)| && Recipients(c)[i] == id;
        assert c.guestLinks[i].guestId == id;
      }
    }
  }

  /** A PRIMARY_ONLY contact without a PRIMARY link updates nobody. */
  lemma NoPrimaryNoRecipients(c: Contact)
    requires c.scope == PrimaryOnly && forall i :: 0 <= i < |c.guestLinks| ==> c.guestLinks[i].role != Primary
    ensures Recipients(c) == []
  {
    PrimaryGuestIdFirst(c.guestLinks);
  }

  /** `lastInvite?.contact || findFirst(contact by phone)` */
  function ReplyingContact(from: string, dir: Directory): Option<Contact> {
    var inv := dir.lastInvite(from);
    if inv.Some? then Some(inv.value.contact) else dir.latestContact(from)
  }

  /** The canonical number the message came from: `canonPhone(String(msg.from || ""))`. */
  function Sender(msg: Message): string {
    Phone.CanonPhone(msg.from.GetOr(""))
  }

  /** The effects of one message: nothing for a skipped message or an unknown
      number; otherwise the guest update and the publication when there is
      anyone to update, then marking the invite read when there is one. */
  function MessageActions(msg: Message, dir: Directory): seq<Action> {
    match RawPayload(msg)
    case None => []
    case Some(raw) =>
      var st := ReplyStatus(raw);
      var from := Sender(msg);
      var contact := ReplyingContact(from, dir);
      if contact.None? then []
      else
        var toUpdate := Recipients(contact.value);
        var inv := dir.lastInvite(from);
        (if toUpdate != [] then
           [UpdateGuests(IdIn(toUpdate), UpdateRecord(st)),
            Publish(contact.value.eventId, RsvpEvent(RsvpUpdateType, None, toUpdate, st))]
         else [])
        + (if inv.Some? then [MarkInviteRead(inv.value.id)] else [])
  }

  /** The effects of a sequence of messages, one message after the other. */
  function MessagesActions(msgs: seq<Message>, dir: Directory): seq<Action>
    decreases |msgs|
  {
    if msgs == [] then []
    else MessagesActions(msgs[..|msgs| - 1], dir) + MessageActions(msgs[|msgs| - 1], dir)
  }

  /** The effects of the whole request body, entry after entry. */
  function WebhookActions(entries: seq<Entry>, dir: Directory): seq<Action>
    decreases |entries|
  {
    if entries == [] then []
    else WebhookActions(entries[..|entries| - 1], dir) + MessagesActions(EntryMessages(entries[|entries| - 1]), dir)
  }

  // ---------------------------------------------------------------------
  // The handler

  /** The body of the inner loop for one message; its `continue`s are the
      early returns. */
  method HandleMessage(msg: Message, dir: Directory) returns (acts: seq<Action>)
    ensures acts == MessageActions(msg, dir)
  {
    acts := [];
    var from := Phone.CanonPhone(msg.from.GetOr(""));
    var raw := "";
    if msg.msgType == "interactive" && msg.buttonReply.Some? {
      var br := msg.buttonReply.value;
      raw := OrElse(OrElse(br.payload, br.id), br.title).GetOr("");
    } else if msg.msgType == "button" && msg.button.Some? {
      raw := OrElse(msg.button.value.payload, msg.button.value.text).GetOr("");
    } else {
      return;
    }
    var st := ReplyStatus(raw);
    var lastInvite := dir.lastInvite(from);
    var contact := if lastInvite.Some? then Some(lastInvite.value.contact) else dir.latestContact(from);
    if contact.None? {
      return;
    }
    var toUpdate := Recipients(contact.value);
    if |toUpdate| > 0 {
      var data := map["rsvpStatus" := StatusValue(st)];
      if st == No {
        data := data + map["tableId" := NullValue, "seatNumber" := NullValue];
      }
      acts := acts + [UpdateGuests(IdIn(toUpdate), data)];
      acts := acts + [Publish(contact.value.eventId, RsvpEvent(RsvpUpdateType, None, toUpdate, st))];
    }
    if lastInvite.Some? {
      acts := acts + [MarkInviteRead(lastInvite.value.id)];
    }
  }

  /** The inner `for` loop, over the messages of one entry. */
  method HandleMessages(messages: seq<Message>, dir: Directory) returns (acts: seq<Action>)
    ensures acts == MessagesActions(messages, dir)
  {
    acts := [];
    for j := 0 to |messages|
      invariant acts == MessagesActions(messages[..j], dir)
    {
      assert messages[..j + 1][..j] == messages[..j];
      var more := HandleMessage(messages[j], dir);
      acts := acts + more;
    }
    assert messages[..|messages|] == messages;
  }

  /** `POST`: the outer `for` loop, over the entries. */
  method HandleWebhook(entries: seq<Entry>, dir: Directory) returns (actions: seq<Action>)
    ensures actions == WebhookActions(entries, dir)
  {
    actions := [];
    for i := 0 to |entries|
      invariant actions == WebhookActions(entries[..i], dir)
    {
      var entry := entries[i];
      var messages: seq<Message> := [];
      if |entry.changes| > 0 && entry.changes[0].value.Some? {
        messages := entry.changes[0].value.value.messages;
      }
      var acts := HandleMessages(messages, dir);
      assert entries[..i + 1][..i] == entries[..i];
      actions := actions + acts;
    }
    assert entries[..|entries|] == entries;
  }

  // ---------------------------------------------------------------------
  // What the effects promise

  /** An update is never empty, and every publication comes right after the
      update it announces: same guests, same status. */
  ghost predicate WellPaired(acts: seq<Action>) {
    && (forall k :: 0 <= k < |acts| && acts[k].UpdateGuests? ==>
          acts[k].selector.IdIn? && acts[k].selector.ids != [])
    && (forall k :: 0 <= k < |acts| && acts[k].Publish? ==>
          && k > 0 && acts[k - 1].UpdateGuests?
          && acts[k - 1].selector == IdIn(acts[k].event.guestIds)
          && acts[k - 1].data == UpdateRecord(acts[k].event.rsvpStatus)
          && acts[k].event.msgType == RsvpUpdateType
          && acts[k].event.rsvpStatus != Pending)
  }

  lemma WellPairedConcat(a: seq<Action>, b: seq<Action>)
    requires WellPaired(a) && WellPaired(b)
    ensures WellPaired(a + b)
  {
    var ab := a + b;
    forall k | 0 <= k < |ab| && ab[k].Publish?
      ensures k > 0 && ab[k - 1].UpdateGuests? && ab[k - 1].selector == IdIn(ab[k].event.guestIds)
    {
      if k >= |a| {
        assert ab[k] == b[k - |a|];
        assert ab[k - 1] == b[k - |a| - 1];
      }
    }
  }

  lemma MessageActionsWellPaired(msg: Message, dir: Directory)
    ensures WellPaired(MessageActions(msg, dir))
  {
    if RawPayload(msg).Some? {
      ReplyStatusPriority(RawPayload(msg).value);
    }
  }

  lemma {:induction false} MessagesActionsWellPaired(msgs: seq<Message>, dir: Directory)
    ensures WellPaired(MessagesActions(msgs, dir))
    decreases |msgs|
  {
    if msgs != [] {
      MessagesActionsWellPaired(msgs[..|msgs| - 1], dir);
      MessageActionsWellPaired(msgs[|msgs| - 1], dir);
      WellPairedConcat(MessagesActions(msgs[..|msgs| - 1], dir), MessageActions(msgs[|msgs| - 1], dir));
    }
  }

  /** Across the whole request, nothing is updated or published for an empty
      recipient list, and each publication follows the update of exactly the
      guests and status it announces. */
  lemma {:induction false} WebhookActionsWellPaired(entries: seq<Entry>, dir: Directory)
    ensures WellPaired(WebhookActions(entries, dir))
    decreases |entries|
  {
    if entries != [] {
      WebhookActionsWellPaired(entries[..|entries| - 1], dir);
      MessagesActionsWellPaired(EntryMessages(entries[|entries| - 1]), dir);
      WellPairedConcat(WebhookActions(entries[..|entries| - 1], dir), MessagesActions(EntryMessages(entries[|entries| - 1]), dir));
    }
  }

  /** A message that is not a button reply, or that comes from a number with
      no contact, has no effect at all. */
  lemma IgnoredMessages(msg: Message, dir: Directory)
    ensures RawPayload(msg).None? ==> MessageActions(msg, dir) == []
    ensures ReplyingContact(Sender(msg), dir).None? ==> MessageActions(msg, dir) == []
  {}

  /** A reply from a known contact updates its recipients with the reply's
      status (clearing the seating on a NO) and publishes them on the
      contact's event channel. */
  lemma ReplyUpdatesRecipients(msg: Message, dir: Directory)
    requires RawPayload(msg).Some? && ReplyingContact(Sender(msg), dir).Some?
    requires Recipients(ReplyingContact(Sender(msg), dir).value) != []
    ensures var c := ReplyingContact(Sender(msg), dir).value;
            var st := ReplyStatus(RawPayload(msg).value);
            && |MessageActions(msg, dir)| >= 2
            && MessageActions(msg, dir)[0] == UpdateGuests(IdIn(Recipients(c)), UpdateRecord(st))
            && MessageActions(msg, dir)[1] == Publish(c.eventId, RsvpEvent(RsvpUpdateType, None, Recipients(c), st))
  {}

  /** The invite is marked read exactly when the number has one, and last. */
  lemma InviteMarkedLast(msg: Message, dir: Directory)
    requires RawPayload(msg).Some?
    ensures var inv := dir.lastInvite(Sender(msg));
            (inv.Some? <==> MessageActions(msg, dir) != [] && MessageActions(msg, dir)[|MessageActions(msg, dir)| - 1].MarkInviteRead?)
            && (inv.Some? ==> MessageActions(msg, dir)[|MessageActions(msg, dir)| - 1] == MarkInviteRead(inv.value.id))
  {}
}
