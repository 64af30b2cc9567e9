/**
 * The event's guest table (src/components/EventGuestsList.tsx): the list
 * shown is the guests that pass the status filter and the free-text search,
 * and an `rsvp_update` message from the live stream patches the status of
 * the guests it names. The React state, the stream and the fetch around
 * them are not modelled; the list, the query and the filter are inputs.
 */
module GuestList {
  import opened Strings
  import opened Options
  import opened Rsvp

  /** A row of the table. */
  datatype Guest = Guest(
    id: string,
    name: string,
    status: RsvpStatus,
    meal: Option<string>,
    relation: Option<string>,
    table: Option<string>,
    group: Option<string>,
    household: string,
    phone: Option<string>)

  /** The filter buttons: `ALL` or one status. */
  datatype StatusFilter = All | Only(status: RsvpStatus)

  // ---------------------------------------------------------------------
  // Filtering

  /** `q.trim().toLowerCase()` */
  function SearchTerm(q: string): string {
    Lower(Trim(q))
  }

  /** The searched fields, joined with single spaces, missing ones as empty
      text, lower-cased; the meal is not searched. */
  function SearchText(g: Guest): string {
    Lower(g.name + " " + g.household + " " + g.group.GetOr("") + " " + g.table.GetOr("")
          + " " + g.phone.GetOr("") + " " + g.relation.GetOr(""))
  }

  predicate StatusPasses(g: Guest, filter: StatusFilter) {
    filter == All || g.status == filter.status
  }

  /** The callback given to `guests.filter`, with the term already computed. */
  predicate Keeps(g: Guest, term: string, filter: StatusFilter) {
    if !StatusPasses(g, filter) then false
    else if term == "" then true
    else Contains(SearchText(g), term)
  }

  /** `s.filter(p)` */
  function FilterSeq<T>(s: seq<T>, p: T -> bool): seq<T>
    decreases |s|
  {
    if s == [] then []
    else (if p(s[0]) then [s[0]] else []) + FilterSeq(s[1..], p)
  }

  /** The callback of `filtered`. */
  function KeepFn(q: string, filter: StatusFilter): Guest -> bool {
    g => Keeps(g, SearchTerm(q), filter)
  }

  /** `filtered`: the guests kept for the query `q` and the filter. */
  function Filtered(gs: seq<Guest>, q: string, filter: StatusFilter): seq<Guest> {
    FilterSeq(gs, KeepFn(q, filter))
  }

  /** `idx` picks the elements of `r` out of `s`, at positions holding kept elements. */
  ghost predicate PicksKept<T>(s: seq<T>, p: T -> bool, r: seq<T>, idx: seq<int>) {
    && |idx| == |r|
    && forall k :: 0 <= k < |idx| ==> 0 <= idx[k] < |s| && r[k] == s[idx[k]] && p(s[idx[k]])
  }

  ghost predicate Increasing(idx: seq<int>) {
    forall k, l :: 0 <= k < l < |idx| ==> idx[k] < idx[l]
  }

  /** Every position of a kept element is picked. */
  ghost predicate PicksAllKept<T>(s: seq<T>, p: T -> bool, idx: seq<int>) {
    forall i :: 0 <= i < |s| && p(s[i]) ==> i in idx
  }

  /** The positions of the tail, moved one place along, with the head's
      position in front when the head is kept. */
  function ConsPicks<T>(s: seq<T>, p: T -> bool, tail: seq<int>): seq<int>
    requires s != []
  {
    (if p(s[0]) then [0] else []) + seq(|tail|, k requires 0 <= k < |tail| => tail[k] + 1)
  }

  lemma ConsPicksKept<T>(s: seq<T>, p: T -> bool, tail: seq<int>)
    requires s != [] && PicksKept(s[1..], p, FilterSeq(s[1..], p), tail)
    ensures PicksKept(s, p, FilterSeq(s, p), ConsPicks(s, p, tail))
  {
    var rest := s[1..];
    var shifted := seq(|tail|, k requires 0 <= k < |tail| => tail[k] + 1);
    var later := FilterSeq(rest, p);
    forall k | 0 <= k < |tail| ensures 0 < shifted[k] < |s| && later[k] == s[shifted[k]] && p(s[shifted[k]]) {
      assert s[shifted[k]] == rest[tail[k]];
    }
    if p(s[0]) {
      assert FilterSeq(s, p) == [s[0]] + later;
      assert ConsPicks(s, p, tail) == [0] + shifted;
    } else {
      assert FilterSeq(s, p) == later;
      assert ConsPicks(s, p, tail) == shifted;
    }
  }

  lemma ConsPicksIncreasing<T>(s: seq<T>, p: T -> bool, tail: seq<int>)
    requires s != [] && Increasing(tail) && forall k :: 0 <= k < |tail| ==> 0 <= tail[k]
    ensures Increasing(ConsPicks(s, p, tail))
  {}

  lemma ConsPicksAllKept<T>(s: seq<T>, p: T -> bool, tail: seq<int>)
    requires s != [] && PicksAllKept(s[1..], p, tail)
    ensures PicksAllKept(s, p, ConsPicks(s, p, tail))
  {
    var idx := ConsPicks(s, p, tail);
    var h := if p(s[0]) then 1 else 0;
    forall i | 0 < i < |s| && p(s[i]) ensures i in idx {
      assert s[1..][i - 1] == s[i];
      var k :| 0 <= k < |tail| && tail[k] == i - 1;
      assert idx[h + k] == i;
    }
  }

  /** The filtered sequence is the kept elements, in their order: it picks
      them at increasing positions, every element picked is kept, and every
      kept element is picked. */
  lemma {:induction false} FilterPicks<T>(s: seq<T>, p: T -> bool) returns (idx: seq<int>)
    ensures PicksKept(s, p, FilterSeq(s, p), idx) && Increasing(idx) && PicksAllKept(s, p, idx)
    decreases |s|
  {
    if s == [] {
      idx := [];
    } else {
      var tail := FilterPicks(s[1..], p);
      ConsPicksKept(s, p, tail);
      ConsPicksIncreasing(s, p, tail);
      ConsPicksAllKept(s, p, tail);
      idx := ConsPicks(s, p, tail);
    }
  }

  /** An element is in the filtered sequence exactly when it is in the
      sequence and kept. */
  lemma {:induction false} FilterMembers<T>(s: seq<T>, p: T -> bool)
    ensures forall x :: x in FilterSeq(s, p) <==> x in s && p(x)
    decreases |s|
  {
    if s != [] {
      FilterMembers(s[1..], p);
      assert s == [s[0]] + s[1..];
    }
  }

  /** A callback that keeps everything keeps the whole sequence. */
  lemma {:induction false} FilterKeepsAll<T>(s: seq<T>, p: T -> bool)
    requires forall i :: 0 <= i < |s| ==> p(s[i])
    ensures FilterSeq(s, p) == s
    decreases |s|
  {
    if s != [] {
      FilterKeepsAll(s[1..], p);
      assert s == [s[0]] + s[1..];
    }
  }

  /** The shown guests are the kept guests of the list, in list order. */
  lemma FilteredPicks(gs: seq<Guest>, q: string, filter: StatusFilter) returns (idx: seq<int>)
    ensures var r := Filtered(gs, q, filter);
            && |idx| == |r|
            && (forall k :: 0 <= k < |idx| ==> 0 <= idx[k] < |gs| && r[k] == gs[idx[k]] && Keeps(gs[idx[k]], SearchTerm(q), filter))
            && (forall k, l :: 0 <= k < l < |idx| ==> idx[k] < idx[l])
            && (forall i :: 0 <= i < |gs| && Keeps(gs[i], SearchTerm(q), filter) ==> i in idx)
  {
    idx := FilterPicks(gs, KeepFn(q, filter));
  }

  /** A guest is shown exactly when it is in the list and kept. */
  lemma FilteredMembers(gs: seq<Guest>, q: string, filter: StatusFilter)
    ensures forall g :: g in Filtered(gs, q, filter) <==> g in gs && Keeps(g, SearchTerm(q), filter)
  {
    FilterMembers(gs, KeepFn(q, filter));
  }

  /** With a filter other than `ALL`, only guests of that status are shown. */
  lemma FilteredStatus(gs: seq<Guest>, q: string, st: RsvpStatus)
    ensures forall g :: g in Filtered(gs, q, Only(st)) ==> g.status == st
  {
    FilteredMembers(gs, q, Only(st));
  }

  /** An empty or all-whitespace query searches nothing: the status filter
      alone decides, and under `ALL` the whole list is shown. */
  lemma BlankQueryKeepsStatus(gs: seq<Guest>, q: string, filter: StatusFilter)
    requires AllWhitespace(q)
    ensures forall g :: g in Filtered(gs, q, filter) <==> g in gs && StatusPasses(g, filter)
    ensures Filtered(gs, q, All) == gs
  {
    TrimAllWhitespace(q);
    assert SearchTerm(q) == "";
    FilteredMembers(gs, q, filter);
    FilterKeepsAll(gs, KeepFn(q, All));
  }

  /** The search ignores the case of the query. */
  lemma QueryCaseIgnored(gs: seq<Guest>, q: string, filter: StatusFilter)
    ensures Filtered(gs, Upper(q), filter) == Filtered(gs, q, filter)
    ensures Filtered(gs, Lower(q), filter) == Filtered(gs, q, filter)
  {
    TrimCaseMapping(q);
    CaseMappingsAbsorb(Trim(q));
  }

  /** A guest of a passing status is shown when the non-blank term occurs,
      in any case, in its name, its household or any other searched field. */
  lemma FieldMatchShown(g: Guest, term: string, filter: StatusFilter)
    requires StatusPasses(g, filter) && term != ""
    requires || Contains(Lower(g.name), term)
             || Contains(Lower(g.household), term)
             || Contains(Lower(g.group.GetOr("")), term)
             || Contains(Lower(g.table.GetOr("")), term)
             || Contains(Lower(g.phone.GetOr("")), term)
             || Contains(Lower(g.relation.GetOr("")), term)
    ensures Keeps(g, term, filter)
  {
    var fields := [g.name, g.household, g.group.GetOr(""), g.table.GetOr(""), g.phone.GetOr(""), g.relation.GetOr("")];
    var i :| 0 <= i < 6 && Contains(Lower(fields[i]), term);
    var hay := g.name + " " + g.household + " " + g.group.GetOr("") + " " + g.table.GetOr("")
               + " " + g.phone.GetOr("") + " " + g.relation.GetOr("");
    var before, after := FieldContext(fields, i);
    assert hay == before + fields[i] + after;
    CaseMappingConcat(before + fields[i], after);
    CaseMappingConcat(before, fields[i]);
    ContainsInContext(Lower(before), Lower(fields[i]), Lower(after), term);
  }

  /** The text on either side of one field of the joined search text. */
  lemma FieldContext(fields: seq<string>, i: int) returns (before: string, after: string)
    requires |fields| == 6 && 0 <= i < 6
    ensures fields[0] + " " + fields[1] + " " + fields[2] + " " + fields[3] + " " + fields[4] + " " + fields[5]
            == before + fields[i] + after
  {
    var f := fields;
    if i == 0 {
      before, after := "", " " + f[1] + " " + f[2] + " " + f[3] + " " + f[4] + " " + f[5];
    } else if i == 1 {
      before, after := f[0] + " ", " " + f[2] + " " + f[3] + " " + f[4] + " " + f[5];
    } else if i == 2 {
      before, after := f[0] + " " + f[1] + " ", " " + f[3] + " " + f[4] + " " + f[5];
    } else if i == 3 {
      before, after := f[0] + " " + f[1] + " " + f[2] + " ", " " + f[4] + " " + f[5];
    } else if i == 4 {
      before, after := f[0] + " " + f[1] + " " + f[2] + " " + f[3] + " ", " " + f[5];
    } else {
      before, after := f[0] + " " + f[1] + " " + f[2] + " " + f[3] + " " + f[4] + " ", "";
    }
  }

  /** The meal is not searched: guests that differ only in the meal are
      shown or hidden together. */
  lemma MealNotSearched(g: Guest, meal: Option<string>, term: string, filter: StatusFilter)
    ensures Keeps(g.(meal := meal), term, filter) == Keeps(g, term, filter)
  {
    assert SearchText(g.(meal := meal)) == SearchText(g);
  }

  // ---------------------------------------------------------------------
  // The live status patch

  /** `setGuests(prev => …)` for one stream message: an `rsvp_update` sets the
      status of each guest it names; any other message changes nothing. */
  function ApplyMessage(gs: seq<Guest>, msg: RsvpEvent): (r: seq<Guest>) {
    if msg.msgType == RsvpUpdateType then
      seq(|gs|, i requires 0 <= i < |gs| => if gs[i].id in msg.guestIds then gs[i].(status := msg.rsvpStatus) else gs[i])
    else gs
  }

  /** The patch keeps the length and order of the list; a guest named by an
      update takes its status, and everything else about every guest stays. */
  lemma ApplyMessageEffects(gs: seq<Guest>, msg: RsvpEvent)
    ensures var r := ApplyMessage(gs, msg);
            && |r| == |gs|
            && forall i :: 0 <= i < |gs| ==>
                 && r[i].(status := gs[i].status) == gs[i]
                 && r[i].status == (if msg.msgType == RsvpUpdateType && gs[i].id in msg.guestIds then msg.rsvpStatus else gs[i].status)
  {}

  /** A message of another type leaves the list as it is. */
  lemma OtherMessageIgnored(gs: seq<Guest>, msg: RsvpEvent)
    requires msg.msgType != RsvpUpdateType
    ensures ApplyMessage(gs, msg) == gs
  {}

  /** Receiving the same update twice is the same as receiving it once. */
  lemma ApplyMessageIdempotent(gs: seq<Guest>, msg: RsvpEvent)
    ensures ApplyMessage(ApplyMessage(gs, msg), msg) == ApplyMessage(gs, msg)
  {}

  /** A later update to the same guests overrides an earlier one. */
  lemma LaterUpdateWins(gs: seq<Guest>, first: RsvpEvent, second: RsvpEvent)
    requires first.msgType == RsvpUpdateType && second.msgType == RsvpUpdateType
    requires forall id :: id in first.guestIds ==> id in second.guestIds
    ensures ApplyMessage(ApplyMessage(gs, first), second) == ApplyMessage(gs, second)
  {}

  /** Updates to disjoint sets of guests can arrive in either order. */
  lemma DisjointUpdatesCommute(gs: seq<Guest>, a: RsvpEvent, b: RsvpEvent)
    requires forall id :: id in a.guestIds ==> id !in b.guestIds
    ensures ApplyMessage(ApplyMessage(gs, a), b) == ApplyMessage(ApplyMessage(gs, b), a)
  {}
}
