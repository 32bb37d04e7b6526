/**
 * The calendar document as far as the application touches it: a VCALENDAR with
 * PRODID and VERSION and a sequence of VEVENT subcomponents, identified by UID.
 * Serialisation is the library's and is not modelled; `Doc()` is the content
 * it would serialise.
 */
module CalendarDoc {
  import opened Wrappers
  import opened JsString
  import opened JsDate
  import opened Records

  const ProdId: string := "-//ICS Calendar Viewer & Editor//EN"
  const Version: string := "2.0"

  /**
   * A VEVENT: the properties the application reads or writes, and the content
   * lines of every other property (RRULE, ATTENDEE, ...), which it never touches.
   */
  datatype VEvent = VEvent(
    uid: Text,
    summary: Text,
    description: Text,
    location: Text,
    dtstart: Option<Time>,
    dtend: Option<Time>,
    other: seq<string>)

  /**
   * A VCALENDAR: PRODID, VERSION, the VEVENTs, and the content lines of
   * everything else the file holds (other calendar properties, VTIMEZONE and
   * other components), which the application never touches.
   */
  datatype Document = Document(prodid: Text, version: Text, vevents: seq<VEvent>, extra: seq<string>)

  /**
   * `new ICAL.Event(vevent).uid === id`: the UID property (a string or null)
   * against a record id (a string or undefined), so a missing value matches nothing.
   */
  predicate HasUid(v: VEvent, id: Text) {
    v.uid.Str? && id.Str? && v.uid.s == id.s
  }

  /** `vevents.findIndex(...)` on the UID: the first matching position, or -1. */
  function FirstMatch(vs: seq<VEvent>, id: Text): (k: int)
    ensures -1 <= k < |vs|
    ensures k >= 0 ==> HasUid(vs[k], id)
    ensures forall j :: 0 <= j < |vs| && (k == -1 || j < k) ==> !HasUid(vs[j], id)
  {
    if vs == [] then -1
    else if HasUid(vs[0], id) then 0
    else
      var k := FirstMatch(vs[1..], id);
      if k == -1 then -1 else k + 1
  }

  /** The properties `handleUpdateEvent` sets on the found vevent; UID and other properties stay. */
  function Rewritten(v: VEvent, e: Event): VEvent {
    v.(summary := e.title, description := e.description, location := e.location,
       dtstart := Some(e.start), dtend := Some(e.end))
  }

  /** The vevent built for a record by export synthesis and by `handleSaveNewEvent`. */
  function ToVEvent(e: Event): VEvent {
    VEvent(e.id, e.title, e.description, e.location, Some(e.start), Some(e.end), [])
  }

  /** The vevents after rewriting the first one with the record's id; unchanged when none has it. */
  function UpdateFirst(vs: seq<VEvent>, e: Event): seq<VEvent> {
    var k := FirstMatch(vs, e.id);
    if k == -1 then vs else vs[k := Rewritten(vs[k], e)]
  }

  /** The vevents after detaching the first one with the id; unchanged when none has it. */
  function RemoveFirst(vs: seq<VEvent>, id: Text): seq<VEvent> {
    var k := FirstMatch(vs, id);
    if k == -1 then vs else vs[..k] + vs[k + 1..]
  }

  /** One vevent per record, in list order. */
  function Mirror(events: seq<Event>): (vs: seq<VEvent>)
    ensures |vs| == |events|
    ensures forall i :: 0 <= i < |events| ==> vs[i] == ToVEvent(events[i])
  {
    if events == [] then [] else [ToVEvent(events[0])] + Mirror(events[1..])
  }

  /** The calendar `handleSaveICS` builds when there is none: the application's PRODID and VERSION and the records. */
  function Synthesized(events: seq<Event>): (d: Document)
    ensures d.prodid == Str(ProdId) && d.version == Str(Version) && d.extra == []
    ensures |d.vevents| == |events|
    ensures forall i :: 0 <= i < |events| ==> d.vevents[i].uid == events[i].id
  {
    Document(Str(ProdId), Str(Version), Mirror(events), [])
  }

  /** How many vevents carry the id. */
  function Matches(vs: seq<VEvent>, id: Text): nat {
    if vs == [] then 0 else (if HasUid(vs[0], id) then 1 else 0) + Matches(vs[1..], id)
  }

  /** The `ICAL.Component` held in the `calendar` state. */
  class Calendar {
    var prodid: Text
    var version: Text
    var vevents: seq<VEvent>
    var extra: seq<string>

    /** `new ICAL.Component(['vcalendar', [], []])` with PRODID and VERSION set. */
    constructor Empty()
      ensures prodid == Str(ProdId) && version == Str(Version) && vevents == [] && extra == []
    {
      prodid := Str(ProdId);
      version := Str(Version);
      vevents := [];
      extra := [];
    }

    /** The component the structured parser built from a file. */
    constructor Load(d: Document)
      ensures Doc() == d
    {
      prodid := d.prodid;
      version := d.version;
      vevents := d.vevents;
      extra := d.extra;
    }

    /** What `calendar.toString()` serialises. */
    function Doc(): Document
      reads this
    {
      Document(prodid, version, vevents, extra)
    }

    /** `calendar.addSubcomponent(vevent)`. */
    method AddSubcomponent(v: VEvent)
      modifies this
      ensures vevents == old(vevents) + [v]
      ensures prodid == old(prodid) && version == old(version) && extra == old(extra)
    {
      vevents := vevents + [v];
    }

    /** The `find`/`findIndex` search over the vevents. */
    method FindUid(id: Text) returns (k: int)
      ensures k == FirstMatch(vevents, id)
    {
      k := 0;
      while k < |vevents| && !HasUid(vevents[k], id)
        invariant 0 <= k <= |vevents|
        invariant forall j :: 0 <= j < k ==> !HasUid(vevents[j], id)
      {
        k := k + 1;
      }
      if k == |vevents| {
        k := -1;
      }
    }

    /** The document side of `handleUpdateEvent`: rewrite the first match, if any. */
    method UpdateEvent(e: Event)
      modifies this
      ensures vevents == UpdateFirst(old(vevents), e)
      ensures prodid == old(prodid) && version == old(version) && extra == old(extra)
    {
      var k := FindUid(e.id);
      if k != -1 {
        var v := vevents[k];
        v := v.(summary := e.title, description := e.description, location := e.location);
        v := v.(dtstart := Some(e.start));
        v := v.(dtend := Some(e.end));
        vevents := vevents[k := v];
      }
    }

    /** The document side of `handleDeleteEvent`: detach the first match, if any. */
    method RemoveEvent(id: Text)
      modifies this
      ensures vevents == RemoveFirst(old(vevents), id)
      ensures prodid == old(prodid) && version == old(version) && extra == old(extra)
    {
      var k := FindUid(id);
      if k != -1 {
        vevents := vevents[..k] + vevents[k + 1..];
      }
    }
  }

  // ---------------------------------------------------------------------------
  // Properties of the document operations

  /** The first match is determined by the UIDs alone. */
  lemma {:induction false} FirstMatchByUids(vs: seq<VEvent>, ws: seq<VEvent>, id: Text)
    requires |vs| == |ws|
    requires forall j :: 0 <= j < |vs| ==> vs[j].uid == ws[j].uid
    ensures FirstMatch(vs, id) == FirstMatch(ws, id)
  {
    if vs != [] {
      FirstMatchByUids(vs[1..], ws[1..], id);
    }
  }

  /**
   * Update keeps the number of vevents and every UID; it rewrites the first
   * vevent with the id and no other, and changes nothing when none has it.
   */
  lemma UpdateFirstSpec(vs: seq<VEvent>, e: Event)
    ensures var r := UpdateFirst(vs, e); var k := FirstMatch(vs, e.id);
      && |r| == |vs|
      && (forall j :: 0 <= j < |vs| ==> r[j].uid == vs[j].uid && r[j].other == vs[j].other)
      && (forall j :: 0 <= j < |vs| && j != k ==> r[j] == vs[j])
      && (k == -1 ==> r == vs)
      && (k != -1 ==> r[k] == Rewritten(vs[k], e))
  {
  }

  /** Applying the same update twice is applying it once. */
  lemma UpdateFirstIdempotent(vs: seq<VEvent>, e: Event)
    ensures UpdateFirst(UpdateFirst(vs, e), e) == UpdateFirst(vs, e)
  {
    var r := UpdateFirst(vs, e);
    UpdateFirstSpec(vs, e);
    FirstMatchByUids(vs, r, e.id);
  }

  lemma {:induction false} MatchesSplit(a: seq<VEvent>, b: seq<VEvent>, id: Text)
    ensures Matches(a + b, id) == Matches(a, id) + Matches(b, id)
    decreases |a|
  {
    if a == [] {
      assert a + b == b;
    } else {
      assert (a + b)[1..] == a[1..] + b;
      MatchesSplit(a[1..], b, id);
    }
  }

  lemma {:induction false} NoMatchesBefore(vs: seq<VEvent>, k: nat, id: Text)
    requires k <= |vs|
    requires forall j :: 0 <= j < k ==> !HasUid(vs[j], id)
    ensures Matches(vs[..k], id) == 0
    decreases k
  {
    if k > 0 {
      assert vs[..k] == vs[..k - 1] + [vs[k - 1]];
      MatchesSplit(vs[..k - 1], [vs[k - 1]], id);
      NoMatchesBefore(vs, k - 1, id);
    }
  }

  /**
   * Delete detaches exactly one vevent when some vevent has the id — the first,
   * so a duplicate UID survives — and none otherwise; the rest keep their order.
   */
  lemma RemoveFirstSpec(vs: seq<VEvent>, id: Text)
    ensures var r := RemoveFirst(vs, id); var k := FirstMatch(vs, id);
      && (k == -1 ==> r == vs && Matches(vs, id) == 0)
      && (k != -1 ==> r == vs[..k] + vs[k + 1..] && Matches(r, id) == Matches(vs, id) - 1)
  {
    var k := FirstMatch(vs, id);
    if k == -1 {
      NoMatchesBefore(vs, |vs|, id);
      assert vs[..|vs|] == vs;
    } else {
      assert vs == vs[..k] + ([vs[k]] + vs[k + 1..]);
      MatchesSplit(vs[..k], [vs[k]] + vs[k + 1..], id);
      MatchesSplit([vs[k]], vs[k + 1..], id);
      MatchesSplit(vs[..k], vs[k + 1..], id);
      NoMatchesBefore(vs, k, id);
    }
  }

  /** After deleting an id that two vevents carry, a vevent with that id is still there. */
  lemma DuplicateSurvivesRemove(vs: seq<VEvent>, id: Text)
    requires Matches(vs, id) >= 2
    ensures Matches(RemoveFirst(vs, id), id) >= 1
    ensures FirstMatch(RemoveFirst(vs, id), id) != -1
  {
    RemoveFirstSpec(vs, id);
    var r := RemoveFirst(vs, id);
    if FirstMatch(r, id) == -1 {
      RemoveFirstSpec(r, id);
    }
  }
}
