/**
 * The flat record list and the pure operations on it: the search filter that
 * derives the visible list, replacement and removal by id, and the routing of a
 * submitted form between update and add.
 */
module EventList {
  import opened Wrappers
  import opened JsString
  import opened Seqs
  import opened Records

  /** `t.toLowerCase().includes(q)` for a defined string. */
  predicate TextIncludes(t: Text, q: string) {
    t.Str? && Includes(Lower(t.s), q)
  }

  /**
   * The filter callback for the lower-cased query `q`: the title, or a non-empty
   * description, or a non-empty location contains it.
   */
  predicate Hit(e: Event, q: string) {
    || TextIncludes(e.title, q)
    || (Truthy(e.description) && TextIncludes(e.description, q))
    || (Truthy(e.location) && TextIncludes(e.location, q))
  }

  predicate AllTitled(events: seq<Event>) {
    forall i :: 0 <= i < |events| ==> events[i].title.Str?
  }

  /**
   * The visible list for a search query: every event for a blank query;
   * otherwise the events matching the lower-cased, untrimmed query, in order.
   * `None` is the `TypeError` the filter raises on an event whose title is
   * undefined.
   */
  function Search(events: seq<Event>, query: string): (r: Option<seq<Event>>)
    ensures Blank(query) ==> r == Some(events)
    ensures r.None? <==> !Blank(query) && !AllTitled(events)
    ensures r.Some? ==> IsSubsequence(r.value, events)
  {
    TrimEmptyIffBlank(query);
    if Trim(query) == [] then SubsequenceOfItself(events); Some(events)
    else if !AllTitled(events) then None
    else Some(Filter(events, (e: Event) => Hit(e, Lower(query))))
  }

  /** For a non-blank query, an event is shown exactly when it is in the list and matches the query. */
  lemma SearchKeepsExactlyHits(events: seq<Event>, query: string, e: Event)
    requires !Blank(query) && AllTitled(events)
    ensures Search(events, query).Some?
    ensures e in Search(events, query).value <==> e in events && Hit(e, Lower(query))
  {
    TrimEmptyIffBlank(query);
    FilterMembers(events, (e: Event) => Hit(e, Lower(query)), e);
  }

  /** The query is compared case-insensitively: lower-casing it first changes nothing. */
  lemma SearchCaseInsensitive(events: seq<Event>, query: string)
    ensures Search(events, Lower(query)) == Search(events, query)
  {
    LowerKeepsBlank(query);
    LowerIdempotent(query);
    TrimEmptyIffBlank(query);
    TrimEmptyIffBlank(Lower(query));
  }

  /**
   * `events.map(e => e.id === updated.id ? updated : e)`: every record with the
   * id is replaced in place, the others stay, and ids never change.
   */
  function ReplaceById(events: seq<Event>, updated: Event): (r: seq<Event>)
    ensures |r| == |events|
    ensures forall i :: 0 <= i < |events| ==> r[i].id == events[i].id
    ensures forall i :: 0 <= i < |events| && events[i].id == updated.id ==> r[i] == updated
    ensures forall i :: 0 <= i < |events| && events[i].id != updated.id ==> r[i] == events[i]
  {
    if events == [] then []
    else [if events[0].id == updated.id then updated else events[0]] + ReplaceById(events[1..], updated)
  }

  /** Replacing twice is replacing once. */
  lemma ReplaceByIdIdempotent(events: seq<Event>, updated: Event)
    ensures ReplaceById(ReplaceById(events, updated), updated) == ReplaceById(events, updated)
  {
  }

  /** An id that no record has leaves the list unchanged. */
  lemma ReplaceByIdAbsent(events: seq<Event>, updated: Event)
    requires forall i :: 0 <= i < |events| ==> events[i].id != updated.id
    ensures ReplaceById(events, updated) == events
  {
  }

  /** `events.filter(e => e.id !== eventId)`. */
  function RemoveById(events: seq<Event>, id: Text): (r: seq<Event>)
    ensures IsSubsequence(r, events)
    ensures forall i :: 0 <= i < |r| ==> r[i].id != id
    ensures forall i :: 0 <= i < |events| && events[i].id != id ==> events[i] in r
  {
    Filter(events, (e: Event) => e.id != id)
  }

  /** Deleting an id that no record has leaves the list unchanged. */
  lemma RemoveByIdAbsent(events: seq<Event>, id: Text)
    requires forall i :: 0 <= i < |events| ==> events[i].id != id
    ensures RemoveById(events, id) == events
  {
    FilterKeepsAll(events, (e: Event) => e.id != id);
  }

  /** Deleting an id that exactly one record has removes that record and keeps the others in order. */
  lemma RemoveByIdSingle(events: seq<Event>, k: nat, id: Text)
    requires k < |events| && events[k].id == id
    requires forall i :: 0 <= i < |events| && i != k ==> events[i].id != id
    ensures RemoveById(events, id) == events[..k] + events[k + 1..]
  {
    var a, b := events[..k], events[k + 1..];
    assert events == a + [events[k]] + b;
    FilterDropsOne(a, events[k], b, (e: Event) => e.id != id);
  }

  /** Deleting removes every record with the id and no other: the count drops by the number of holders. */
  lemma {:induction false} RemoveByIdCount(events: seq<Event>, id: Text)
    ensures |RemoveById(events, id)| + Count(events, (e: Event) => e.id == id) == |events|
    decreases |events|
  {
    if events != [] {
      RemoveByIdCount(events[1..], id);
    }
  }

  predicate HasId(events: seq<Event>, id: Text) {
    exists i :: 0 <= i < |events| && events[i].id == id
  }

  datatype SaveRoute = ToUpdate | ToAdd

  /** The form's save goes to update when the edited record's id is truthy and some record has it. */
  function Route(events: seq<Event>, id: Text): (r: SaveRoute)
    ensures r == ToUpdate <==> Truthy(id) && HasId(events, id)
  {
    if Truthy(id) && HasId(events, id) then ToUpdate else ToAdd
  }

  /** The list after a form save: in place for an update, appended with no duplicate check for an add. */
  function Saved(events: seq<Event>, r: Event): seq<Event> {
    match Route(events, r.id)
    case ToUpdate => ReplaceById(events, r)
    case ToAdd => events + [r]
  }

  /** A saved record is in the list afterwards; an add grows the list by one, an update keeps its length. */
  lemma SavedContains(events: seq<Event>, r: Event)
    ensures r in Saved(events, r)
    ensures |Saved(events, r)| == |events| + (if Route(events, r.id) == ToAdd then 1 else 0)
  {
    if Route(events, r.id) == ToUpdate {
      var i :| 0 <= i < |events| && events[i].id == r.id;
      assert Saved(events, r)[i] == r;
    }
  }

  /** With a truthy id, saving the same record twice equals saving it once. */
  lemma SaveIdempotent(events: seq<Event>, r: Event)
    requires Truthy(r.id)
    ensures Saved(Saved(events, r), r) == Saved(events, r)
  {
    var once := Saved(events, r);
    if Route(events, r.id) == ToAdd {
      assert once[|events|] == r;
      assert HasId(once, r.id);
      var twice := ReplaceById(once, r);
      assert forall i :: 0 <= i < |events| ==> events[i].id != r.id;
      assert forall i :: 0 <= i < |once| ==> twice[i] == once[i];
    }
  }

  /** Without a truthy id every save is an add: saving twice appends the record twice. */
  lemma SaveWithoutIdDuplicates(events: seq<Event>, r: Event)
    requires !Truthy(r.id)
    ensures Saved(Saved(events, r), r) == events + [r, r]
  {
  }
}
