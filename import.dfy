/**
 * The import pipeline of `handleFileUpload`: the structured parser is tried
 * first; the fallback scanner runs only when it throws or yields no usable
 * record; when both yield nothing the import fails.
 */
module ImportPolicy {
  import opened Wrappers
  import opened JsString
  import opened JsDate
  import opened Seqs
  import opened Records
  import opened CalendarDoc
  import opened FallbackScanner

  /** What `new ICAL.Event(vevent)` exposes for one VEVENT: UID and SUMMARY may be absent, the dates are converted. */
  datatype VeventFields = VeventFields(
    uid: Text,
    summary: Text,
    start: Time,
    end: Time,
    description: Text,
    location: Text)

  /**
   * The outcome of `ICAL.parse`: `ParseError` when it throws; otherwise the
   * parsed component, and for each of its VEVENT subcomponents the fields read
   * from it, or `None` when reading them throws.
   */
  datatype StructuredParse = ParseError | Parsed(doc: Document, views: seq<Option<VeventFields>>)

  datatype ImportOutcome = Structured(records: seq<Event>) | Fallback(records: seq<Event>) | Failed

  /** The record built for the i-th VEVENT, with the `||` defaults of the projection. */
  function Project(f: VeventFields, i: nat, env: Env): Event {
    Event(
      Str(OrElse(f.uid, env.freshId(i))),
      Str(OrElse(f.summary, UntitledTitle)),
      f.start,
      f.end,
      Str(OrElse(f.description, "")),
      Str(OrElse(f.location, "")),
      RandomCategory(env, i),
      false)
  }

  /** `vevents.map(...).filter(e => e !== null)`: the readable VEVENTs projected, in order. */
  function ProjectAll(views: seq<Option<VeventFields>>, env: Env): (records: seq<Event>)
    ensures |records| == Count(views, (v: Option<VeventFields>) => v.Some?)
    decreases |views|
  {
    if views == [] then []
    else
      var init, last := views[..|views| - 1], views[|views| - 1];
      CountSnoc(init, last, (v: Option<VeventFields>) => v.Some?);
      assert views == init + [last];
      ProjectAll(init, env) + (if last.Some? then [Project(last.value, |views| - 1, env)] else [])
  }

  /** The records the structured stage yields: none when the parser throws. */
  function StructuredRecords(p: StructuredParse, env: Env): seq<Event> {
    if p.Parsed? then ProjectAll(p.views, env) else []
  }

  /** The import decision for a file's text and its structured parse. */
  function Import(p: StructuredParse, text: string, env: Env): (r: ImportOutcome)
    ensures r.Structured? || r.Fallback? ==> r.records != []
  {
    var structured := StructuredRecords(p, env);
    if structured != [] then Structured(structured)
    else
      var scanned := Scan(text, env);
      if scanned != [] then Fallback(scanned) else Failed
  }

  // ---------------------------------------------------------------------------
  // The policy

  /** The structured stage wins whenever it yields a record, whatever the text would scan to. */
  lemma StructuredFirst(p: StructuredParse, text1: string, text2: string, env: Env)
    requires StructuredRecords(p, env) != []
    ensures Import(p, text1, env) == Import(p, text2, env) == Structured(StructuredRecords(p, env))
  {
  }

  /** The fallback result is taken exactly when the structured stage yields nothing and the scan finds a record. */
  lemma FallbackOnlyAfterStructured(p: StructuredParse, text: string, env: Env)
    ensures Import(p, text, env).Fallback? <==> StructuredRecords(p, env) == [] && Scan(text, env) != []
    ensures Import(p, text, env).Fallback? ==> Import(p, text, env).records == Scan(text, env)
  {
  }

  /** The import fails exactly when both stages yield nothing. */
  lemma FailedIffBothEmpty(p: StructuredParse, text: string, env: Env)
    ensures Import(p, text, env).Failed? <==> StructuredRecords(p, env) == [] && Scan(text, env) == []
  {
  }

  /** A component whose every VEVENT fails to project, or that has none, yields no structured record. */
  lemma {:induction false} UnreadableViewsYieldNothing(views: seq<Option<VeventFields>>, env: Env)
    ensures ProjectAll(views, env) == [] <==> forall i :: 0 <= i < |views| ==> views[i].None?
    decreases |views|
  {
    if views != [] {
      var init := views[..|views| - 1];
      UnreadableViewsYieldNothing(init, env);
      assert forall i :: 0 <= i < |init| ==> init[i] == views[i];
    }
  }

  /**
   * Projection defaults: the UID if non-empty, else a generated id; the summary
   * if non-empty, else `Untitled Event`; empty description and location when
   * absent; never all-day.
   */
  lemma ProjectDefaults(f: VeventFields, i: nat, env: Env)
    requires ValidEnv(env)
    ensures var e := Project(f, i, env);
      && e.id == (if Truthy(f.uid) then f.uid else Str(env.freshId(i)))
      && Truthy(e.id)
      && e.title == (if Truthy(f.summary) then f.summary else Str(UntitledTitle))
      && e.description.Str? && e.location.Str?
      && (Truthy(f.description) ==> e.description == f.description)
      && (Truthy(f.location) ==> e.location == f.location)
      && e.start == f.start && e.end == f.end
      && !e.allDay && IsCategoryId(e.category)
  {
  }

  /** Every record of a successful structured import has a truthy id and a title. */
  lemma {:induction false} StructuredRecordsTitled(views: seq<Option<VeventFields>>, env: Env)
    requires ValidEnv(env)
    ensures forall e :: e in ProjectAll(views, env) ==> Truthy(e.id) && Truthy(e.title) && !e.allDay
    decreases |views|
  {
    if views != [] {
      StructuredRecordsTitled(views[..|views| - 1], env);
      if views[|views| - 1].Some? {
        ProjectDefaults(views[|views| - 1].value, |views| - 1, env);
      }
    }
  }

  // ---------------------------------------------------------------------------
  // Records and the document they came from

  /** The views were read from the document's VEVENTs, one each, in order: a readable one carries its UID. */
  predicate Coherent(p: StructuredParse) {
    p.Parsed? ==>
      && |p.views| == |p.doc.vevents|
      && forall i :: 0 <= i < |p.views| && p.views[i].Some? ==> p.views[i].value.uid == p.doc.vevents[i].uid
  }

  /** When every VEVENT is readable, the i-th record is the projection of the i-th view. */
  lemma {:induction false} ProjectAllReadable(views: seq<Option<VeventFields>>, env: Env)
    requires forall i :: 0 <= i < |views| ==> views[i].Some?
    ensures |ProjectAll(views, env)| == |views|
    ensures forall i :: 0 <= i < |views| ==> ProjectAll(views, env)[i] == Project(views[i].value, i, env)
    decreases |views|
  {
    if views != [] {
      var init := views[..|views| - 1];
      assert forall i :: 0 <= i < |init| ==> init[i] == views[i];
      ProjectAllReadable(init, env);
    }
  }

  /**
   * After a structured import of a readable component, a record from a VEVENT
   * with a non-empty UID has that UID as its id, so later updates and deletes
   * find that VEVENT; a record from a VEVENT without one has a generated id
   * that VEVENT does not carry, so edits of the record never reach it.
   */
  lemma ImportedIdsAreUids(p: StructuredParse, env: Env)
    requires ValidEnv(env) && p.Parsed? && Coherent(p)
    requires forall i :: 0 <= i < |p.views| ==> p.views[i].Some?
    ensures |StructuredRecords(p, env)| == |p.doc.vevents|
    ensures forall i :: 0 <= i < |p.doc.vevents| && Truthy(p.doc.vevents[i].uid) ==>
      StructuredRecords(p, env)[i].id == p.doc.vevents[i].uid && HasUid(p.doc.vevents[i], StructuredRecords(p, env)[i].id)
    ensures forall i :: 0 <= i < |p.doc.vevents| && !Truthy(p.doc.vevents[i].uid) ==>
      !HasUid(p.doc.vevents[i], StructuredRecords(p, env)[i].id)
  {
    ProjectAllReadable(p.views, env);
    forall i | 0 <= i < |p.views|
      ensures Truthy(p.doc.vevents[i].uid) ==> StructuredRecords(p, env)[i].id == p.doc.vevents[i].uid
      ensures !Truthy(p.doc.vevents[i].uid) ==> !HasUid(p.doc.vevents[i], StructuredRecords(p, env)[i].id)
    {
      ProjectDefaults(p.views[i].value, i, env);
    }
  }
}
