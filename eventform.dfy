/**
 * The event editor: its field state, the initialisation from the record it is
 * given, the validator, the merge of the edited fields into that record on
 * submit, and the category colour map.
 */
module EventForm {
  import opened Wrappers
  import opened JsString
  import opened JsDate
  import opened Records

  const TitleRequired: string := "Please enter an event title"
  const EndBeforeStart: string := "End date cannot be before start date"

  /** The values of the form's fields. */
  datatype FormValues = FormValues(
    title: string,
    start: Time,
    end: Time,
    description: string,
    location: string,
    category: string,
    allDay: bool)

  /** The field values before any record is loaded: empty text, both dates `now`, blue, not all-day. */
  function Pristine(now: Epoch): FormValues {
    FormValues("", At(now), At(now), "", "", DefaultCategory, false)
  }

  /** The field values the effect loads from a record, with the `||` defaults for missing or empty values. */
  function Initial(e: Event): (v: FormValues)
    ensures v.start == e.start && v.end == e.end && v.allDay == e.allDay
    ensures Truthy(e.title) ==> v.title == e.title.s
    ensures !Truthy(e.title) ==> v.title == ""
    ensures Truthy(e.description) ==> v.description == e.description.s
    ensures !Truthy(e.description) ==> v.description == ""
    ensures Truthy(e.location) ==> v.location == e.location.s
    ensures !Truthy(e.location) ==> v.location == ""
    ensures v.category == (if e.category == "" then DefaultCategory else e.category)
    ensures v.category != ""
  {
    FormValues(OrElse(e.title, ""), e.start, e.end, OrElse(e.description, ""), OrElse(e.location, ""),
               OrElse(Str(e.category), DefaultCategory), e.allDay)
  }

  /**
   * `validateForm`: the error message, or `None` when the form may be saved.
   * A blank title is reported first; the dates are rejected only when the end
   * is strictly before the start (an invalid date compares false).
   */
  function Validation(v: FormValues): (err: Option<string>)
    ensures err.None? <==> !Blank(v.title) && !Before(v.end, v.start)
    ensures Blank(v.title) ==> err == Some(TitleRequired)
    ensures !Blank(v.title) && Before(v.end, v.start) ==> err == Some(EndBeforeStart)
  {
    TrimEmptyIffBlank(v.title);
    if Trim(v.title) == [] then Some(TitleRequired)
    else if Before(v.end, v.start) then Some(EndBeforeStart)
    else None
  }

  /**
   * `{...event, title, start, end, description, location, category, allDay}`:
   * every field the form edits comes from the form, the id from the record
   * (undefined when there is none).
   */
  function Merge(event: Option<Event>, v: FormValues): (r: Event)
    ensures r.id == (if event.Some? then event.value.id else Undefined)
    ensures r.title == Str(v.title) && r.start == v.start && r.end == v.end
    ensures r.description == Str(v.description) && r.location == Str(v.location)
    ensures r.category == v.category && r.allDay == v.allDay
  {
    var base := if event.Some? then event.value else Event(Undefined, Undefined, Invalid, Invalid, Undefined, Undefined, "", false);
    base.(title := Str(v.title), start := v.start, end := v.end, description := Str(v.description),
          location := Str(v.location), category := v.category, allDay := v.allDay)
  }

  /** `colorMap` of `getColorForCategory`. */
  const ColorMap: map<string, string> := map[
    "blue" := "#4285F4",
    "red" := "#EA4335",
    "yellow" := "#FBBC05",
    "green" := "#34A853",
    "purple" := "#8E24AA",
    "cyan" := "#24C1E0",
    "orange" := "#F4511E"
  ]

  /** `colorMap[id] || colorMap.blue`. */
  function ColorForCategory(id: string): (c: string)
    ensures id in ColorMap ==> c == ColorMap[id]
    ensures id !in ColorMap ==> c == ColorMap[DefaultCategory]
  {
    if id in ColorMap && ColorMap[id] != "" then ColorMap[id] else ColorMap[DefaultCategory]
  }

  /** The editor component's state. */
  class Form {
    const event: Option<Event>
    var title: string
    var start: Time
    var end: Time
    var description: string
    var location: string
    var category: string
    var allDay: bool
    var showColorPicker: bool
    var formError: string

    /** The `useState` initial values, for the record passed in as `event`. */
    constructor (event: Option<Event>, now: Epoch)
      ensures this.event == event && Values() == Pristine(now)
      ensures !showColorPicker && formError == ""
    {
      this.event := event;
      title, start, end := "", At(now), At(now);
      description, location := "", "";
      category, allDay := DefaultCategory, false;
      showColorPicker, formError := false, "";
    }

    function Values(): FormValues
      reads this
    {
      FormValues(title, start, end, description, location, category, allDay)
    }

    /** The effect on `event`: load the record's values when there is one, else keep the fields. */
    method Load()
      modifies this
      ensures event.Some? ==> Values() == Initial(event.value)
      ensures event.None? ==> Values() == old(Values())
      ensures showColorPicker == old(showColorPicker) && formError == old(formError)
    {
      if event.Some? {
        var e := event.value;
        title := OrElse(e.title, "");
        start := e.start;
        end := e.end;
        description := OrElse(e.description, "");
        location := OrElse(e.location, "");
        category := OrElse(Str(e.category), DefaultCategory);
        allDay := e.allDay;
      }
    }

    /** `validateForm`: sets the error message (empty when valid) and reports validity. */
    method Validate() returns (ok: bool)
      modifies this
      ensures ok <==> Validation(old(Values())).None?
      ensures formError == (if ok then "" else Validation(old(Values())).value)
      ensures Values() == old(Values()) && showColorPicker == old(showColorPicker)
    {
      TrimEmptyIffBlank(title);
      if Trim(title) == [] {
        formError := TitleRequired;
        return false;
      }
      if Before(end, start) {
        formError := EndBeforeStart;
        return false;
      }
      formError := "";
      return true;
    }

    /** `handleSubmit`: the merged record handed to `onSave`, or `None` when validation fails. */
    method Submit() returns (saved: Option<Event>)
      modifies this
      ensures saved.Some? <==> Validation(old(Values())).None?
      ensures saved.Some? ==> saved.value == Merge(event, old(Values()))
      ensures formError == (if saved.Some? then "" else Validation(old(Values())).value)
      ensures Values() == old(Values()) && showColorPicker == old(showColorPicker)
    {
      var ok := Validate();
      if !ok {
        return None;
      }
      return Some(Merge(event, Values()));
    }

    /** `toggleColorPicker`. */
    method ToggleColorPicker()
      modifies this
      ensures showColorPicker == !old(showColorPicker)
      ensures Values() == old(Values()) && formError == old(formError)
    {
      showColorPicker := !showColorPicker;
    }
  }

  // ---------------------------------------------------------------------------
  // Properties

  /** A saved record has a non-blank title and does not end before it starts. */
  lemma SavedIsValid(event: Option<Event>, v: FormValues)
    requires Validation(v).None?
    ensures var r := Merge(event, v); r.title.Str? && !Blank(r.title.s) && !Before(r.end, r.start)
  {
  }

  /**
   * Loading a record and saving it unedited gives the record back exactly
   * when its text fields are defined and its category is non-empty; only the
   * id and the edited fields are carried.
   */
  lemma LoadThenMergeRoundTrip(e: Event)
    ensures Merge(Some(e), Initial(e)) == e <==>
      e.title.Str? && e.description.Str? && e.location.Str? && e.category != ""
  {
    if Merge(Some(e), Initial(e)) == e {
      assert Initial(e).category == e.category;
    }
  }

  /** Submitting twice without an edit in between saves the same record. */
  lemma MergeIgnoresFormHistory(e: Option<Event>, v: FormValues)
    ensures Merge(Some(Merge(e, v)), v) == Merge(e, v)
  {
  }

  /** The quick-add form, whose title is empty, can never be submitted unedited. */
  lemma EmptyTitleRejected(v: FormValues)
    requires v.title == ""
    ensures Validation(v) == Some(TitleRequired)
  {
  }

  /** The colour map and the palette agree on every id, and both fall back to blue. */
  lemma ColorMapMatchesPalette(id: string)
    ensures ColorForCategory(id) == CategoryColor(id)
  {
    PaletteColors();
    if IsCategoryId(id) {
      var k :| 0 <= k < |Categories| && Categories[k].id == id;
      assert id in ColorMap;
    } else {
      assert id !in ColorMap;
    }
  }

  /** The colour map lists the palette's colours under the palette's ids. */
  lemma PaletteColors()
    ensures forall k :: 0 <= k < |Categories| ==> Categories[k].id in ColorMap && ColorMap[Categories[k].id] == Categories[k].color
    ensures forall id :: id in ColorMap ==> IsCategoryId(id)
  {
    assert Categories[0].id == "blue";
    assert Categories[1].id == "red";
    assert Categories[2].id == "yellow";
    assert Categories[3].id == "green";
    assert Categories[4].id == "purple";
    assert Categories[5].id == "cyan";
    assert Categories[6].id == "orange";
  }
}
