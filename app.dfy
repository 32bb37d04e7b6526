/**
 * The application state and its handlers: the calendar document (or none),
 * the record list, the selection and editing flags, the file name, the search
 * query, the active category and the quick-add flag. The visible list is not
 * stored: it is recomputed from the records and the query after every change.
 */
module App {
  import opened Wrappers
  import opened JsString
  import opened JsDate
  import opened Seqs
  import opened Records
  import opened CalendarDoc
  import opened FallbackScanner
  import opened ImportPolicy
  import opened EventList

  const DefaultFileName: string := "calendar.ics"
  const NewEventTitle: string := "New Event"

  /** A file picked in the upload input: its name, its text, and what the structured parser makes of it. */
  datatype UploadedFile = UploadedFile(name: string, text: string, parse: StructuredParse)

  /** The record `handleCreateEvent` opens in the editor at time `now`; its `allDay` is absent, read as false. */
  function NewEventTemplate(now: Epoch): (e: Event)
    ensures e.id == Str("event-" + IntString(now)) && Truthy(e.id)
    ensures e.start == At(now) && e.end == TimeClip(now + MsPerHour)
    ensures e.title == Str(NewEventTitle) && e.category == DefaultCategory
    ensures e.description == Str("") && e.location == Str("") && !e.allDay
  {
    Event(Str("event-" + IntString(now)), Str(NewEventTitle), At(now), AddMs(At(now), MsPerHour),
          Str(""), Str(""), DefaultCategory, false)
  }

  /** The record the quick-add form starts from: the same shape with an empty title. */
  function QuickAddTemplate(now: Epoch): (e: Event)
    ensures e == NewEventTemplate(now).(title := Str(""))
    ensures !Truthy(e.title)
  {
    Event(Str("event-" + IntString(now)), Str(""), At(now), AddMs(At(now), MsPerHour),
          Str(""), Str(""), DefaultCategory, false)
  }

  /** The name the export is saved under. */
  function ExportName(fileName: string): (name: string)
    ensures name != []
    ensures fileName != [] ==> name == fileName
  {
    if fileName == [] then DefaultFileName else fileName
  }

  class AppState {
    var calendar: Calendar?
    var events: seq<Event>
    var selected: Option<Event>
    var editing: bool
    var fileName: string
    var query: string
    var activeCategory: string
    var quickAddOpen: bool

    /** The initial state: no calendar, no records, the first category active. */
    constructor ()
      ensures calendar == null && events == [] && selected == None && !editing
      ensures fileName == [] && query == [] && activeCategory == Categories[0].id && !quickAddOpen
    {
      calendar := null;
      events := [];
      selected := None;
      editing := false;
      fileName := [];
      query := [];
      activeCategory := Categories[0].id;
      quickAddOpen := false;
    }

    /** The list the views show for the current query (`None`: the filter throws). */
    function Visible(): Option<seq<Event>>
      reads this
    {
      Search(events, query)
    }

    /** The document lists exactly the records, in order, one vevent each. */
    predicate InSync()
      reads this, calendar
    {
      calendar != null && calendar.vevents == Mirror(events)
    }

    /**
     * `handleFileUpload`: no file changes nothing; otherwise the name is taken,
     * the records of the import are appended, and the calendar becomes the
     * parsed component as soon as the structured parser succeeds — kept even if
     * that stage yields no record — or a new empty calendar when the fallback
     * scanner supplies the records.
     */
    method FileUpload(file: Option<UploadedFile>, env: Env) returns (outcome: Option<ImportOutcome>)
      modifies this
      ensures file.None? ==> outcome.None? && calendar == old(calendar) && events == old(events) && fileName == old(fileName)
      ensures file.Some? ==> outcome == Some(Import(file.value.parse, file.value.text, env)) && fileName == file.value.name
      ensures outcome.Some? && !outcome.value.Failed? ==> events == old(events) + outcome.value.records
      ensures outcome.Some? && outcome.value.Failed? ==> events == old(events)
      ensures outcome.Some? && outcome.value.Structured? ==> calendar != null && fresh(calendar) && calendar.Doc() == file.value.parse.doc
      ensures outcome.Some? && outcome.value.Fallback? ==> calendar != null && fresh(calendar) && calendar.Doc() == Synthesized([])
      ensures outcome.Some? && outcome.value.Failed? ==>
        if file.value.parse.Parsed? then calendar != null && fresh(calendar) && calendar.Doc() == file.value.parse.doc
        else calendar == old(calendar)
      ensures selected == old(selected) && editing == old(editing) && query == old(query)
      ensures activeCategory == old(activeCategory) && quickAddOpen == old(quickAddOpen)
    {
      if file.None? {
        return None;
      }
      var f := file.value;
      fileName := f.name;
      if f.parse.Parsed? {
        var comp := new Calendar.Load(f.parse.doc);
        calendar := comp;
      }
      var structured := StructuredRecords(f.parse, env);
      if structured != [] {
        events := events + structured;
        return Some(Structured(structured));
      }
      var scanned := ParseFallback(f.text, env);
      if scanned != [] {
        events := events + scanned;
        var cal := new Calendar.Empty();
        calendar := cal;
        assert cal.Doc() == Synthesized([]);
        return Some(Fallback(scanned));
      }
      return Some(Failed);
    }

    /**
     * `handleSaveICS`: with a calendar, its document as it stands; without one,
     * a new calendar holding one vevent per record, which becomes the state's.
     */
    method SaveICS() returns (doc: Document, name: string)
      modifies this
      ensures name == ExportName(fileName)
      ensures old(calendar) != null ==> calendar == old(calendar) && doc == old(calendar.Doc())
      ensures old(calendar) == null ==> calendar != null && fresh(calendar) && doc == Synthesized(events) && calendar.Doc() == doc
      ensures old(calendar) == null ==> InSync()
      ensures events == old(events) && selected == old(selected) && editing == old(editing)
      ensures fileName == old(fileName) && query == old(query)
      ensures activeCategory == old(activeCategory) && quickAddOpen == old(quickAddOpen)
    {
      name := ExportName(fileName);
      if calendar != null {
        doc := calendar.Doc();
        return;
      }
      var cal := new Calendar.Empty();
      var records := events;
      for i := 0 to |records|
        modifies cal
        invariant cal.vevents == Mirror(records[..i])
        invariant cal.prodid == Str(ProdId) && cal.version == Str(Version) && cal.extra == []
      {
        assert records[..i + 1] == records[..i] + [records[i]];
        MirrorSnoc(records[..i], records[i]);
        cal.AddSubcomponent(ToVEvent(records[i]));
      }
      assert records[..|records|] == records;
      calendar := cal;
      doc := cal.Doc();
    }

    /** `handleSelectEvent`. */
    method SelectEvent(e: Event)
      modifies this
      ensures selected == Some(e)
      ensures calendar == old(calendar) && events == old(events) && editing == old(editing)
      ensures fileName == old(fileName) && query == old(query)
      ensures activeCategory == old(activeCategory) && quickAddOpen == old(quickAddOpen)
    {
      selected := Some(e);
    }

    /** `handleEditEvent` and `handleCancelEdit`. */
    method SetEditing(on: bool)
      modifies this
      ensures editing == on
      ensures calendar == old(calendar) && events == old(events) && selected == old(selected)
      ensures fileName == old(fileName) && query == old(query)
      ensures activeCategory == old(activeCategory) && quickAddOpen == old(quickAddOpen)
    {
      editing := on;
    }

    /**
     * `handleUpdateEvent`: the first vevent with the record's UID is rewritten,
     * every record with its id is replaced, the record is selected and editing ends.
     */
    method UpdateEvent(updated: Event)
      modifies this, calendar
      ensures calendar == old(calendar)
      ensures calendar != null ==> calendar.vevents == UpdateFirst(old(calendar.vevents), updated)
      ensures calendar != null ==> calendar.prodid == old(calendar.prodid) && calendar.version == old(calendar.version)
      ensures calendar != null ==> calendar.extra == old(calendar.extra)
      ensures events == ReplaceById(old(events), updated)
      ensures selected == Some(updated) && !editing
      ensures old(InSync()) && UniqueIds(old(events)) && updated.id.Str? ==> InSync()
      ensures fileName == old(fileName) && query == old(query)
      ensures activeCategory == old(activeCategory) && quickAddOpen == old(quickAddOpen)
    {
      if calendar != null {
        calendar.UpdateEvent(updated);
      }
      if old(InSync()) && UniqueIds(old(events)) && updated.id.Str? {
        MirrorReplace(old(events), updated);
      }
      events := ReplaceById(events, updated);
      selected := Some(updated);
      editing := false;
    }

    /**
     * `handleDeleteEvent`: the first vevent with the UID is detached, every
     * record with the id is dropped, and the selection is cleared.
     */
    method DeleteEvent(id: Text)
      modifies this, calendar
      ensures calendar == old(calendar)
      ensures calendar != null ==> calendar.vevents == RemoveFirst(old(calendar.vevents), id)
      ensures calendar != null ==> calendar.prodid == old(calendar.prodid) && calendar.version == old(calendar.version)
      ensures calendar != null ==> calendar.extra == old(calendar.extra)
      ensures events == RemoveById(old(events), id)
      ensures selected == None && editing == old(editing)
      ensures old(InSync()) && UniqueIds(old(events)) && id.Str? ==> InSync()
      ensures fileName == old(fileName) && query == old(query)
      ensures activeCategory == old(activeCategory) && quickAddOpen == old(quickAddOpen)
    {
      if calendar != null {
        calendar.RemoveEvent(id);
      }
      if old(InSync()) && UniqueIds(old(events)) && id.Str? {
        MirrorRemove(old(events), id);
      }
      events := RemoveById(events, id);
      selected := None;
    }

    /** `handleCreateEvent`: the template is selected and opened in the editor; the list is untouched. */
    method CreateEvent(now: Epoch)
      modifies this
      ensures selected == Some(NewEventTemplate(now)) && editing && !quickAddOpen
      ensures calendar == old(calendar) && events == old(events) && fileName == old(fileName)
      ensures query == old(query) && activeCategory == old(activeCategory)
    {
      selected := Some(NewEventTemplate(now));
      editing := true;
      quickAddOpen := false;
    }

    /** `handleQuickAdd` and `handleCloseQuickAdd`. */
    method SetQuickAdd(open: bool)
      modifies this
      ensures quickAddOpen == open
      ensures calendar == old(calendar) && events == old(events) && selected == old(selected) && editing == old(editing)
      ensures fileName == old(fileName) && query == old(query) && activeCategory == old(activeCategory)
    {
      quickAddOpen := open;
    }

    /**
     * `handleSaveNewEvent`: the record is appended and selected and editing
     * ends. A vevent is added only to a calendar that existed before the call:
     * the one created here when there was none stays empty.
     */
    method SaveNewEvent(e: Event)
      modifies this, calendar
      ensures old(calendar) != null ==> calendar == old(calendar) && calendar.vevents == old(calendar.vevents) + [ToVEvent(e)]
      ensures old(calendar) != null ==> calendar.prodid == old(calendar.prodid) && calendar.version == old(calendar.version)
      ensures old(calendar) != null ==> calendar.extra == old(calendar.extra)
      ensures old(calendar) == null ==> calendar != null && fresh(calendar) && calendar.Doc() == Synthesized([])
      ensures events == old(events) + [e] && selected == Some(e) && !editing
      ensures old(InSync()) ==> InSync()
      ensures fileName == old(fileName) && query == old(query)
      ensures activeCategory == old(activeCategory) && quickAddOpen == old(quickAddOpen)
    {
      var had := calendar;
      if calendar == null {
        var cal := new Calendar.Empty();
        calendar := cal;
        assert cal.Doc() == Synthesized([]);
      }
      if had != null {
        had.AddSubcomponent(ToVEvent(e));
        MirrorSnoc(events, e);
      }
      events := events + [e];
      selected := Some(e);
      editing := false;
    }

    /**
     * The form's `onSave`: an update when the selected record's id is truthy
     * and some record has it, otherwise an add. The form is only shown for a
     * selected record, and rendering its header calls `startsWith` on the id,
     * which throws unless the id is a string.
     */
    method Submit(r: Event) returns (route: SaveRoute)
      requires selected.Some? && selected.value.id.Str?
      modifies this, calendar
      ensures route == Route(old(events), old(selected).value.id)
      ensures route == ToUpdate ==> events == ReplaceById(old(events), r)
      ensures route == ToUpdate ==> calendar == old(calendar)
      ensures route == ToUpdate && calendar != null ==> calendar.vevents == UpdateFirst(old(calendar.vevents), r)
      ensures route == ToAdd ==> events == old(events) + [r]
      ensures route == ToAdd && old(calendar) != null ==> calendar == old(calendar) && calendar.vevents == old(calendar.vevents) + [ToVEvent(r)]
      ensures route == ToAdd && old(calendar) == null ==> calendar != null && fresh(calendar) && calendar.Doc() == Synthesized([])
      ensures old(calendar) != null ==> calendar.prodid == old(calendar.prodid) && calendar.version == old(calendar.version)
      ensures old(calendar) != null ==> calendar.extra == old(calendar.extra)
      ensures selected == Some(r) && !editing
      ensures fileName == old(fileName) && query == old(query)
      ensures activeCategory == old(activeCategory) && quickAddOpen == old(quickAddOpen)
    {
      route := Route(events, selected.value.id);
      if route == ToUpdate {
        UpdateEvent(r);
      } else {
        SaveNewEvent(r);
      }
    }

    /** `handleSearch`. */
    method SetQuery(q: string)
      modifies this
      ensures query == q && events == old(events) && calendar == old(calendar)
      ensures selected == old(selected) && editing == old(editing) && fileName == old(fileName)
      ensures activeCategory == old(activeCategory) && quickAddOpen == old(quickAddOpen)
    {
      query := q;
    }

    /** `handleCategoryToggle`: choosing the active category keeps it; any other becomes active. */
    method CategoryToggle(c: string)
      modifies this
      ensures activeCategory == c
      ensures calendar == old(calendar) && events == old(events) && selected == old(selected)
      ensures editing == old(editing) && fileName == old(fileName) && query == old(query)
      ensures quickAddOpen == old(quickAddOpen)
    {
      if activeCategory == c {
        return;
      }
      activeCategory := c;
    }

    /** `getCurrentCategoryColor`: the active palette entry's colour, or the first entry's. */
    function CurrentCategoryColor(): (c: string)
      reads this
      ensures IsCategoryId(activeCategory) ==>
        exists k :: 0 <= k < |Categories| && Categories[k].id == activeCategory && c == Categories[k].color
      ensures !IsCategoryId(activeCategory) ==> c == Categories[0].color
    {
      CategoryColor(activeCategory)
    }
  }

  // ---------------------------------------------------------------------------
  // The record list against the document

  /** No two records share an id. */
  predicate UniqueIds(events: seq<Event>) {
    forall i, j :: 0 <= i < j < |events| ==> events[i].id != events[j].id
  }

  /** Appending a record appends its vevent. */
  lemma MirrorSnoc(events: seq<Event>, e: Event)
    ensures Mirror(events + [e]) == Mirror(events) + [ToVEvent(e)]
  {
    assert forall i :: 0 <= i < |events| ==> (events + [e])[i] == events[i];
  }

  lemma MirrorAppend(a: seq<Event>, b: seq<Event>)
    ensures Mirror(a + b) == Mirror(a) + Mirror(b)
  {
    assert forall i :: 0 <= i < |a| ==> (a + b)[i] == a[i];
    assert forall i :: |a| <= i < |a| + |b| ==> (a + b)[i] == b[i - |a|];
  }

  /** A record's vevent carries its id exactly when the id is defined and equal. */
  lemma HasUidOfRecord(e: Event, id: Text)
    requires id.Str?
    ensures HasUid(ToVEvent(e), id) <==> e.id == id
  {
  }

  /**
   * With unique ids, the list update and the document update agree: replacing
   * a record by id and rewriting the first vevent with its UID produce the same
   * document.
   */
  lemma MirrorReplace(events: seq<Event>, r: Event)
    requires UniqueIds(events) && r.id.Str?
    ensures Mirror(ReplaceById(events, r)) == UpdateFirst(Mirror(events), r)
  {
    var m := Mirror(events);
    var k := FirstMatch(m, r.id);
    if k == -1 {
      forall i | 0 <= i < |events|
        ensures events[i].id != r.id
      {
        assert !HasUid(m[i], r.id);
      }
      ReplaceByIdAbsent(events, r);
    } else {
      var lhs, rhs := Mirror(ReplaceById(events, r)), m[k := Rewritten(m[k], r)];
      forall i | 0 <= i < |events|
        ensures lhs[i] == rhs[i]
      {
        if i != k {
          assert events[i].id != events[k].id;
        }
      }
    }
  }

  /**
   * With unique ids, the list delete and the document delete agree: dropping
   * the records with an id and detaching the first vevent with it produce the
   * same document.
   */
  lemma MirrorRemove(events: seq<Event>, id: Text)
    requires UniqueIds(events) && id.Str?
    ensures Mirror(RemoveById(events, id)) == RemoveFirst(Mirror(events), id)
  {
    var m := Mirror(events);
    var k := FirstMatch(m, id);
    if k == -1 {
      forall i | 0 <= i < |events|
        ensures events[i].id != id
      {
        assert !HasUid(m[i], id);
      }
      RemoveByIdAbsent(events, id);
    } else {
      forall i | 0 <= i < |events| && i != k
        ensures events[i].id != id
      {
        assert events[i].id != events[k].id;
      }
      RemoveByIdSingle(events, k, id);
      MirrorAppend(events[..k], events[k + 1..]);
      assert m[..k] == Mirror(events[..k]);
      assert m[k + 1..] == Mirror(events[k + 1..]);
    }
  }

  /**
   * With two records sharing an id, the list and the document part ways: the
   * list update rewrites both, the document update only the first vevent.
   */
  lemma UpdateDivergesOnDuplicates(events: seq<Event>, r: Event, i: nat, j: nat)
    requires i < j < |events| && events[i].id == r.id && events[j].id == r.id && r.id.Str?
    requires ToVEvent(events[j]) != ToVEvent(r)
    ensures Mirror(ReplaceById(events, r))[j] == ToVEvent(r)
    ensures UpdateFirst(Mirror(events), r)[j] == ToVEvent(events[j])
    ensures Mirror(ReplaceById(events, r)) != UpdateFirst(Mirror(events), r)
  {
    var m := Mirror(events);
    assert HasUid(m[i], r.id);
    var k := FirstMatch(m, r.id);
    assert k != -1 && k <= i;
  }

  /**
   * With two records sharing an id, deleting it leaves no record with it but
   * leaves the second vevent with that UID in the document.
   */
  lemma DeleteDivergesOnDuplicates(events: seq<Event>, id: Text, i: nat, j: nat)
    requires i < j < |events| && events[i].id == id && events[j].id == id && id.Str?
    ensures forall e :: e in RemoveById(events, id) ==> e.id != id
    ensures FirstMatch(RemoveFirst(Mirror(events), id), id) != -1
  {
    var m := Mirror(events);
    assert HasUid(m[i], id);
    var k := FirstMatch(m, id);
    assert k != -1 && k <= i;
    var rest := RemoveFirst(m, id);
    assert rest[j - 1] == m[j];
    assert HasUid(rest[j - 1], id);
  }

  // ---------------------------------------------------------------------------
  // Scenarios across handlers

  /**
   * Adding a record when no calendar exists, then exporting: the record is in
   * the list, but the exported document has no vevent.
   */
  method AddWithoutCalendarThenExport(app: AppState, e: Event) returns (doc: Document)
    requires app.calendar == null
    modifies app
    ensures e in app.events
    ensures doc == Synthesized([]) && doc.vevents == []
  {
    app.SaveNewEvent(e);
    var name;
    doc, name := app.SaveICS();
  }

  /**
   * An import the fallback scanner handles, then an export: the records are in
   * the list, but the exported document has no vevent.
   */
  method FallbackImportThenExport(app: AppState, file: UploadedFile, env: Env) returns (doc: Document)
    requires Import(file.parse, file.text, env).Fallback?
    modifies app
    ensures |app.events| > 0
    ensures doc == Synthesized([]) && doc.vevents == []
  {
    var outcome := app.FileUpload(Some(file), env);
    var name;
    doc, name := app.SaveICS();
  }

  /** Exporting twice without a change in between writes the same document. */
  method ExportTwice(app: AppState) returns (first: Document, second: Document)
    modifies app
    ensures first == second
  {
    var name;
    first, name := app.SaveICS();
    second, name := app.SaveICS();
  }
}
