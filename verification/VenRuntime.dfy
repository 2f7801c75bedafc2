/** The loop a VEN runs: sync, file what is due, survive a restart. */
module VenLoop {
  import opened Wrappers
  import opened Arithmetic
  import opened Model
  import opened Timelines
  import opened Aggregation
  import opened AggregateNumbers
  import opened VenSchedule
  import opened StateKeys
  import opened VenReports

  // ------------------------------------------------------------------------
  // The VTN as the loop sees it
  // ------------------------------------------------------------------------

  const MAX_PAGE_LIMIT: nat := 50

  /** A page of the named size. */
  function PageOf(collection: seq<Event>, skip: nat): seq<Event> {
    var from := Min(skip, |collection|);
    collection[from..Min(from + MAX_PAGE_LIMIT, |collection|)]
  }

  /** The VTN's tag of a page: absent with caching off, otherwise different for different pages. */
  type Tagging = seq<Event> -> Option<string>

  ghost predicate Faithful(tag: Tagging) {
    forall p: seq<Event>, q: seq<Event> :: tag(p).Some? && tag(p) == tag(q) ==> p == q
  }

  /** `list_all`: pages of the named size until a short one. */
  method ListAll(collection: seq<Event>) returns (out: seq<Event>)
    ensures out == collection
  {
    out := [];
    var skip := 0;
    while true
      invariant skip <= |collection| && out == collection[..skip]
      decreases |collection| - skip
    {
      var page := PageOf(collection, skip);
      out := out + page;
      if |page| < MAX_PAGE_LIMIT { return; }
      skip := skip + MAX_PAGE_LIMIT;
    }
  }

  /** Events by id; of two with one id the later wins. */
  function ById(list: seq<Event>): (m: Events)
    ensures forall id :: id in m ==> m[id].id == id && m[id] in list
    ensures forall e :: e in list ==> e.id in m
  {
    if list == [] then map[] else ById(list[..|list| - 1])[list[|list| - 1].id := list[|list| - 1]]
  }

  /** The last of the events with an id is the one held. */
  lemma {:induction false} LaterWins(list: seq<Event>, i: nat)
    requires i < |list| && forall j :: i < j < |list| ==> list[j].id != list[i].id
    ensures list[i].id in ById(list) && ById(list)[list[i].id] == list[i]
  {
    if i < |list| - 1 {
      LaterWins(list[..|list| - 1], i);
    }
  }

  /** What a sync compares: which ids, last modified when. */
  function View(events: Events): map<ObjectId, Timestamp> {
    map id | id in events :: events[id].modified
  }

  datatype SyncOutcome = SyncOutcome(changed: bool, added: set<ObjectId>, updated: set<ObjectId>,
    removed: set<ObjectId>)

  const QUIET: SyncOutcome := SyncOutcome(false, {}, {}, {})

  /** The comparison loops of `sync`. */
  method Compare(held: Events, incoming: Events) returns (o: SyncOutcome)
    ensures o.added == incoming.Keys - held.Keys
    ensures o.removed == held.Keys - incoming.Keys
    ensures o.updated == set id | id in incoming && id in held && incoming[id].modified != held[id].modified
    ensures o.changed <==> View(incoming) != View(held)
    ensures o.changed <==> o.added != {} || o.updated != {} || o.removed != {}
  {
    var added: set<ObjectId>, updated: set<ObjectId>, removed: set<ObjectId> := {}, {}, {};
    var todo := incoming.Keys;
    while todo != {}
      invariant todo <= incoming.Keys
      invariant added == incoming.Keys - todo - held.Keys
      invariant updated == set id | id in incoming && id !in todo && id in held
        && incoming[id].modified != held[id].modified
      decreases todo
    {
      var id :| id in todo;
      if id !in held {
        added := added + {id};
      } else if incoming[id].modified != held[id].modified {
        updated := updated + {id};
      }
      todo := todo - {id};
    }
    var gone := held.Keys;
    while gone != {}
      invariant gone <= held.Keys && removed == held.Keys - gone - incoming.Keys
      decreases gone
    {
      var id :| id in gone;
      if id !in incoming { removed := removed + {id}; }
      gone := gone - {id};
    }
    o := SyncOutcome(added != {} || updated != {} || removed != {}, added, updated, removed);
    ViewsDiffer(held, incoming, o);
  }

  lemma ViewsDiffer(held: Events, incoming: Events, o: SyncOutcome)
    requires o.added == incoming.Keys - held.Keys && o.removed == held.Keys - incoming.Keys
    requires o.updated == set id | id in incoming && id in held && incoming[id].modified != held[id].modified
    ensures o.added == {} && o.updated == {} && o.removed == {} <==> View(incoming) == View(held)
  {
    assert View(incoming).Keys == incoming.Keys && View(held).Keys == held.Keys;
    if o.added == {} && o.updated == {} && o.removed == {} {
      assert incoming.Keys == held.Keys;
      forall id | id in incoming ensures View(incoming)[id] == View(held)[id] {
        assert id !in o.updated;
      }
    }
    if View(incoming) == View(held) {
      assert forall id :: id in incoming ==>
        View(incoming)[id] == incoming[id].modified && View(held)[id] == held[id].modified;
    }
  }

  // ------------------------------------------------------------------------
  // The history of a run
  // ------------------------------------------------------------------------

  datatype Step = Filed(key: Key) | Cancelled(event: ObjectId)

  /** Between two acknowledgements of one report its event was cancelled. */
  ghost predicate FiledAtMostOnce(log: seq<Step>) {
    forall i, j :: 0 <= i < j < |log| && log[i].Filed? && log[j] == log[i] ==>
      Cancelled(log[i].key.event) in log[i..j]
  }

  /** A report filed and not cancelled since is remembered. */
  ghost predicate Remembers(log: seq<Step>, reported: set<Key>) {
    forall i :: 0 <= i < |log| && log[i].Filed? && Cancelled(log[i].key.event) !in log[i..] ==> log[i].key in reported
  }

  ghost predicate Consistent(log: seq<Step>, reported: set<Key>) {
    && FiledAtMostOnce(log) && Remembers(log, reported)
    && forall k :: k in reported ==> Bounded(k)
  }

  lemma FileKeepsConsistent(log: seq<Step>, reported: set<Key>, key: Key)
    requires Consistent(log, reported) && key !in reported && Bounded(key)
    ensures Consistent(log + [Filed(key)], reported + {key})
  {
    var log' := log + [Filed(key)];
    forall i, j | 0 <= i < j < |log'| && log'[i].Filed? && log'[j] == log'[i]
      ensures Cancelled(log'[i].key.event) in log'[i..j]
    {
      if j < |log| {
        assert log'[i..j] == log[i..j];
      } else {
        assert log'[i..j] == log[i..];
        assert Cancelled(log[i].key.event) in log[i..];
      }
    }
    forall i | 0 <= i < |log'| && log'[i].Filed? && Cancelled(log'[i].key.event) !in log'[i..]
      ensures log'[i].key in reported + {key}
    {
      if i < |log| {
        assert log'[i..] == log[i..] + [Filed(key)];
        assert Cancelled(log[i].key.event) !in log[i..];
      }
    }
  }

  lemma CancelKeepsConsistent(log: seq<Step>, reported: set<Key>, id: ObjectId)
    requires Consistent(log, reported)
    ensures Consistent(log + [Cancelled(id)], set k | k in reported && k.event != id)
  {
    var log' := log + [Cancelled(id)];
    forall i, j | 0 <= i < j < |log'| && log'[i].Filed? && log'[j] == log'[i]
      ensures Cancelled(log'[i].key.event) in log'[i..j]
    {
      assert log'[i..j] == log[i..j];
    }
    forall i | 0 <= i < |log'| && log'[i].Filed? && Cancelled(log'[i].key.event) !in log'[i..]
      ensures log'[i].key in (set k | k in reported && k.event != id)
    {
      assert log'[i..] == log[i..] + [Cancelled(id)];
      assert log'[i..][|log| - i] == Cancelled(id);
      assert Cancelled(log[i].key.event) !in log[i..];
    }
  }

  /** What a meter and the VTN answer for one due report. */
  datatype Meter = Meter(read: DueReport -> Option<seq<ReportResource>>,
    accept: (DueReport, seq<ReportResource>) -> bool)

  datatype VenState = VenState(venId: Option<ObjectId>, reported: set<string>)

  class VenRuntime {
    const config: VenConfig
    const tag: Tagging
    var venId: Option<ObjectId>
    var eventsEtag: Option<string>
    var events: Events
    var anchors: Anchors
    var timelines: map<ObjectId, Timeline>
    var builtAt: Option<Timestamp>
    var reported: set<Key>
    ghost var log: seq<Step>

    /** What is held of the VTN's collection fits together. */
    ghost predicate Coherent()
      reads `eventsEtag, `events, `anchors, `timelines, `builtAt
    {
      && Faithful(tag)
      && anchors.Keys == events.Keys
      && (forall id :: id in events ==> events[id].id == id && DescriptorsFit(events[id]))
      && (match builtAt
          case None => events == map[] && timelines == map[]
          case Some(b) => BuiltAt(timelines, config, events, anchors, b))
      && (eventsEtag.Some? ==> OnePageWas(eventsEtag, tag, View(events)))
    }

    /** Holds between any two steps of any run. */
    ghost predicate Valid()
      reads this
    {
      Coherent() && Consistent(log, reported)
    }

    constructor (config: VenConfig, tag: Tagging)
      requires Faithful(tag)
      ensures Valid() && this.config == config && this.tag == tag
      ensures events == map[] && reported == {} && log == [] && builtAt == None && eventsEtag == None && venId == None
    {
      this.config, this.tag := config, tag;
      venId, eventsEtag, events, anchors := None, None, map[], map[];
      timelines, builtAt, reported := map[], None, {};
      log := [];
    }

    /** Whether the held timelines must be rebuilt before they are acted on. */
    predicate TimelinesAreStale(now: Timestamp)
      reads this
    {
      match builtAt
      case None => events != map[]
      case Some(b) => Stale(b, now)
    }

    method RebuildTimelines(now: Timestamp)
      modifies this`timelines, this`builtAt
      ensures builtAt == Some(now) && BuiltAt(timelines, config, events, anchors, now)
    {
      timelines := BuildTimelines(config, events, anchors, now);
      builtAt := Some(now);
    }

    /** Forget the reports of cancelled events. */
    method ForgetReports(removed: set<ObjectId>)
      requires Consistent(log, reported)
      modifies this`reported, this`log
      ensures Consistent(log, reported)
      ensures reported == set k | k in old(reported) && k.event !in removed
      ensures old(log) <= log && forall s :: s in log[|old(log)|..] <==> s.Cancelled? && s.event in removed
    {
      var todo := removed;
      while todo != {}
        invariant todo <= removed
        invariant Consistent(log, reported)
        invariant reported == set k | k in old(reported) && (k.event !in removed || k.event in todo)
        invariant old(log) <= log && forall s :: s in log[|old(log)|..] <==> s.Cancelled? && s.event in removed - todo
        decreases todo
      {
        var id :| id in todo;
        CancelKeepsConsistent(log, reported, id);
        ghost var before := log[|old(log)|..];
        reported := set k | k in reported && k.event != id;
        log := log + [Cancelled(id)];
        todo := todo - {id};
        assert log[|old(log)|..] == before + [Cancelled(id)];
      }
    }

    /** The outcome says how the held view moved, and what moved with it. */
    twostate predicate Moved(o: SyncOutcome, now: Timestamp)
      reads this
    {
      && (o.changed <==> View(events) != View(old(events)))
      && o.added == events.Keys - old(events).Keys
      && o.removed == old(events).Keys - events.Keys
      && o.updated == (set id | id in events && id in old(events) && events[id].modified != old(events)[id].modified)
      // An anchor moves only when its event was added or updated, and then to now.
      && (forall id :: id in anchors ==>
            if id in o.added + o.updated then anchors[id] == now
            else id in old(anchors) && anchors[id] == old(anchors)[id])
      // Only cancelled events' reports are forgotten.
      && reported == (set k | k in old(reported) && k.event !in o.removed)
      && old(log) <= log
      && (forall s :: s in log[|old(log)|..] <==> s.Cancelled? && s.event in o.removed)
    }

    /** A 304: nothing at the VTN moved, but the timelines still age. */
    method NotModified(now: Timestamp) returns (outcome: SyncOutcome)
      requires Valid()
      modifies this`timelines, this`builtAt
      ensures Valid() && !TimelinesAreStale(now)
      ensures outcome == QUIET && Moved(outcome, now)
    {
      if TimelinesAreStale(now) { RebuildTimelines(now); }
      outcome := QUIET;
    }

    /** A page that is not the one held: compare it, and adopt it if anything moved. */
    method Receive(incoming: Events, etag: Option<string>, now: Timestamp) returns (outcome: SyncOutcome)
      requires Valid()
      requires forall id :: id in incoming ==> incoming[id].id == id && DescriptorsFit(incoming[id])
      requires etag.Some? ==> OnePageWas(etag, tag, View(incoming))
      modifies this
      ensures Valid() && !TimelinesAreStale(now)
      ensures View(events) == View(incoming) && eventsEtag == etag
      ensures Moved(outcome, now)
    {
      outcome := Compare(events, incoming);
      eventsEtag := etag;
      if outcome.changed {
        Adopt(incoming, outcome, now);
      } else {
        if TimelinesAreStale(now) { RebuildTimelines(now); }
      }
    }

    /**
     `sync` against a VTN holding `collection`, at one reading of the clock. Afterwards the held view
     is the VTN's, the tag is kept exactly when one short page was the whole collection, and the
     timelines reach far enough ahead.
     */
    method Sync(collection: seq<Event>, now: Timestamp) returns (outcome: SyncOutcome)
      requires Valid()
      requires forall e :: e in collection ==> DescriptorsFit(e)
      modifies this
      ensures Valid() && !TimelinesAreStale(now)
      ensures View(events) == View(ById(collection))
      ensures eventsEtag == if |collection| < 50 then tag(collection) else None
      ensures Moved(outcome, now)
    {
      var page := PageOf(collection, 0);
      var pageTag := tag(page);
      if eventsEtag.Some? && pageTag == eventsEtag {
        ShortPageIsAll(collection, eventsEtag, tag, View(events));
        outcome := NotModified(now);
        return;
      }
      ShortPage(collection);
      var fullPage := |page| >= MAX_PAGE_LIMIT;
      var list := page;
      if fullPage { list := ListAll(collection); }
      assert list == collection;
      outcome := Receive(ById(list), if fullPage then None else pageTag, now);
    }

    /** The changed branch of `sync`: anchor, replace, rebuild, forget. */
    method Adopt(incoming: Events, o: SyncOutcome, now: Timestamp)
      requires Consistent(log, reported) && anchors.Keys == events.Keys
      requires o.added == incoming.Keys - events.Keys
      modifies this`anchors, this`events, this`timelines, this`builtAt, this`reported, this`log
      ensures events == incoming && anchors.Keys == incoming.Keys
      ensures forall id :: id in anchors ==>
        if id in o.added + o.updated then anchors[id] == now
        else id in old(anchors) && anchors[id] == old(anchors)[id]
      ensures builtAt == Some(now) && BuiltAt(timelines, config, events, anchors, now)
      ensures Consistent(log, reported)
      ensures reported == set k | k in old(reported) && k.event !in o.removed
      ensures old(log) <= log && forall s :: s in log[|old(log)|..] <==> s.Cancelled? && s.event in o.removed
    {
      anchors := map id | id in incoming :: if id in o.added + o.updated then now else anchors[id];
      events := incoming;
      RebuildTimelines(now);
      ForgetReports(o.removed);
    }

    // ----------------------------------------------------------------------
    // Reporting
    // ----------------------------------------------------------------------

    /** `due_reports`. */
    method DueNow(at: Timestamp) returns (due: seq<DueReport>)
      ensures due == DueReports(config, events, anchors, reported, at)
    {
      due := ComputeDueReports(config, events, anchors, reported, at);
    }

    /** Remember one acknowledged report. */
    method Acknowledge(due: DueReport)
      requires Valid() && due.key !in reported && Bounded(due.key)
      modifies this`reported, this`log
      ensures Valid() && reported == old(reported) + {due.key} && log == old(log) + [Filed(due.key)]
    {
      FileKeepsConsistent(log, reported, due.key);
      reported := reported + {due.key};
      log := log + [Filed(due.key)];
    }

    /**
     `submit_due_reports`. The due reports are taken in order, up to the first that cannot be read,
     cannot be summed or is refused, which ends the cycle. Of those before it, exactly the ones that were
     accepted are filed; a meter with nothing to say leaves its report due and holds up no other.
     Exactly the filed reports leave `due_reports(now)`.
     */
    method SubmitDueReports(now: Timestamp, meter: Meter) returns (filed: seq<DueReport>, ok: bool)
      requires Valid()
      modifies this`reported, this`log
      ensures Valid()
      ensures reported == old(reported) + KeysOf(filed) && log == old(log) + FiledSteps(filed)
      ensures exists n: nat :: CycleEnds(old(DueReports(config, events, anchors, reported, now)), n, filed, ok, meter)
      ensures ok <==> forall d :: d in old(DueReports(config, events, anchors, reported, now)) ==> !EndsCycle(meter, d)
      ensures ok ==> forall d :: d in old(DueReports(config, events, anchors, reported, now)) ==>
        d in filed || meter.read(d) == Some([])
      ensures KeysDistinct(filed)
      ensures DueReports(config, events, anchors, reported, now)
           == Unfiled(old(DueReports(config, events, anchors, reported, now)), KeysOf(filed))
    {
      var due := DueNow(now);
      ghost var owed, before := Owed(config, events, anchors, now), reported;
      DueAreFresh(config, events, anchors, reported, now);
      filed, ok := FileAll(due, meter);
      ghost var n: nat :| CycleEnds(due, n, filed, ok, meter);
      CycleOkIff(due, n, filed, ok, meter);
      UnfiledMore(owed, before, KeysOf(filed));
    }

    /** One turn of the loop: read, sum if asked, send, and remember what was accepted. */
    method FileOne(d: DueReport, meter: Meter) returns (filed: bool, ok: bool)
      requires Valid() && d.key !in reported && Bounded(d.key)
      modifies this`reported, this`log
      ensures Valid()
      ensures reported == old(reported) + (if filed then {d.key} else {})
      ensures log == old(log) + (if filed then [Filed(d.key)] else [])
      ensures ok <==> !EndsCycle(meter, d)
      ensures filed <==> Acceptable(meter, d)
      ensures ok <==> filed || meter.read(d) == Some([])
    {
      var sent := Prepare(meter, d);
      if Acceptable(meter, d) { AcceptedIsNotRefused(meter, d); }
      if sent.Some? { PreparedIsOne(meter, d, sent.value); }
      if sent.None? { return false, false; }
      if sent.value == [] { return false, true; }
      if !meter.accept(d, sent.value) { return false, false; }
      Acknowledge(d);
      filed, ok := true, true;
    }

    /** Just these reports have been filed since the memory and the history were as named. */
    ghost predicate HasFiled(memory: set<Key>, history: seq<Step>, filed: seq<DueReport>)
      reads `reported, `log
    {
      reported == memory + KeysOf(filed) && log == history + FiledSteps(filed)
    }

    /** One turn, after `i` of the due reports. */
    method FileNext(due: seq<DueReport>, i: nat, filed: seq<DueReport>, meter: Meter, ghost memory: set<Key>,
        ghost history: seq<Step>)
      returns (all: seq<DueReport>, ok: bool)
      requires Valid() && i < |due| && KeysDistinct(due)
      requires forall d :: d in due ==> d.key !in memory && Bounded(d.key)
      requires HasFiled(memory, history, filed) && Processed(due, i, filed, meter)
      modifies this`reported, this`log
      ensures Valid() && HasFiled(memory, history, all)
      ensures ok ==> Processed(due, i + 1, all, meter)
      ensures !ok ==> all == filed && EndsCycle(meter, due[i])
    {
      NotYetFiled(due, i, filed, meter);
      var done;
      done, ok := FileOne(due[i], meter);
      all := filed;
      if ok { ProcessedNext(due, i, filed, meter, done); }
      FiledMore(memory, history, filed, due[i]);
      if done { all := filed + [due[i]]; }
    }

    /** The loop of `submit_due_reports`, over reports not yet filed. */
    method FileAll(due: seq<DueReport>, meter: Meter) returns (filed: seq<DueReport>, ok: bool)
      requires Valid() && KeysDistinct(due)
      requires forall d :: d in due ==> d.key !in reported && Bounded(d.key)
      modifies this`reported, this`log
      ensures Valid()
      ensures reported == old(reported) + KeysOf(filed) && log == old(log) + FiledSteps(filed)
      ensures exists n: nat :: CycleEnds(due, n, filed, ok, meter)
      ensures ok ==> forall d :: d in due ==> d in filed || meter.read(d) == Some([])
      ensures KeysDistinct(filed)
    {
      filed, ok := [], true;
      ghost var memory, history := reported, log;
      for i := 0 to |due|
        invariant ok && Valid()
        invariant HasFiled(memory, history, filed)
        invariant Processed(due, i, filed, meter)
      {
        filed, ok := FileNext(due, i, filed, meter, memory, history);
        if !ok {
          CycleFails(due, i, filed, meter);
          return;
        }
      }
      CycleCompletes(due, filed, meter);
    }

    // ----------------------------------------------------------------------
    // Persistence
    // ----------------------------------------------------------------------

    method ExportedState() returns (state: VenState)
      ensures state == VenState(venId, Exported(reported))
    {
      state := VenState(venId, Exported(reported));
    }

    /** `restore`: only the registration and the memory of filed reports come back. */
    method Restore(state: VenState)
      modifies this`venId, this`reported
      ensures venId == state.venId && reported == Restored(state.reported)
    {
      venId := state.venId;
      reported := Restored(state.reported);
    }
  }

  /** Descriptor positions are machine indices. */
  predicate DescriptorsFit(e: Event) {
    e.content.reportDescriptors.Some? ==> |e.content.reportDescriptors.value| <= U64_MAX
  }

  /** The tag was given to one short page, and that page holds what the view shows. */
  ghost predicate OnePageWas(etag: Option<string>, tag: Tagging, view: map<ObjectId, Timestamp>) {
    exists page: seq<Event> :: |page| < MAX_PAGE_LIMIT && tag(page) == etag && View(ById(page)) == view
  }

  /** The same tag again is the same short page, and a short page is the whole collection. */
  lemma ShortPageIsAll(collection: seq<Event>, etag: Option<string>, tag: Tagging, view: map<ObjectId, Timestamp>)
    requires Faithful(tag) && etag.Some? && tag(PageOf(collection, 0)) == etag && OnePageWas(etag, tag, view)
    ensures |collection| < MAX_PAGE_LIMIT && etag == tag(collection) && View(ById(collection)) == view
  {
    var page: seq<Event> :| |page| < MAX_PAGE_LIMIT && tag(page) == etag && View(ById(page)) == view;
    SameTagSamePage(tag, page, PageOf(collection, 0));
    ShortPage(collection);
  }

  lemma SameTagSamePage(tag: Tagging, p: seq<Event>, q: seq<Event>)
    requires Faithful(tag) && tag(p).Some? && tag(p) == tag(q)
    ensures p == q
  {}

  lemma ShortPage(collection: seq<Event>)
    ensures |PageOf(collection, 0)| < MAX_PAGE_LIMIT <==> |collection| < MAX_PAGE_LIMIT
    ensures |collection| < MAX_PAGE_LIMIT ==> PageOf(collection, 0) == collection
  {}

  // ------------------------------------------------------------------------
  // Filing and restarting
  // ------------------------------------------------------------------------

  function KeysOf(due: seq<DueReport>): set<Key> {
    set d | d in due :: d.key
  }

  ghost function FiledSteps(due: seq<DueReport>): seq<Step> {
    seq(|due|, i requires 0 <= i < |due| => Filed(due[i].key))
  }

  /** The meter's series, summed into one where the descriptor asks for it. */
  ghost predicate Prepared(meter: Meter, d: DueReport, sent: seq<ReportResource>) {
    && meter.read(d).Some?
    && if d.aggregate && meter.read(d).value != [] then IsAggregate(meter.read(d).value, sent)
      else sent == meter.read(d).value
  }

  ghost predicate Acceptable(meter: Meter, d: DueReport) {
    exists sent: seq<ReportResource> :: Prepared(meter, d, sent) && sent != [] && meter.accept(d, sent)
  }

  /** The meter could not be read, or what it read could not be summed. */
  ghost predicate Unprepared(meter: Meter, d: DueReport) {
    || meter.read(d).None?
    || (d.aggregate && !PassesThrough(meter.read(d).value) && !AllCombinable(meter.read(d).value))
  }

  /** There was something to send, and the VTN would not have it. */
  ghost predicate Refused(meter: Meter, d: DueReport) {
    exists sent: seq<ReportResource> :: Prepared(meter, d, sent) && sent != [] && !meter.accept(d, sent)
  }

  ghost predicate EndsCycle(meter: Meter, d: DueReport) {
    Unprepared(meter, d) || Refused(meter, d)
  }

  /** There is one thing to send, if any. */
  lemma PreparedIsOne(meter: Meter, d: DueReport, sent: seq<ReportResource>)
    requires Prepared(meter, d, sent)
    ensures forall other :: Prepared(meter, d, other) ==> other == sent
  {
    forall other | Prepared(meter, d, other) ensures other == sent {
      if d.aggregate && meter.read(d).value != [] {
        AggregateIsOne(meter.read(d).value, other, sent);
      }
    }
  }

  /** So a report cannot be both accepted and refused. */
  lemma AcceptedIsNotRefused(meter: Meter, d: DueReport)
    requires Acceptable(meter, d)
    ensures !EndsCycle(meter, d) && meter.read(d) != Some([])
  {
    var sent: seq<ReportResource> :| Prepared(meter, d, sent) && sent != [] && meter.accept(d, sent);
    PreparedIsOne(meter, d, sent);
    if d.aggregate && meter.read(d).value != [] {
      AggregateNeedsAll(meter.read(d).value, sent);
    }
  }

  /** Read and, if asked, aggregate: `None` is an error of either, `[]` a meter with nothing to say. */
  method Prepare(meter: Meter, d: DueReport) returns (sent: Option<seq<ReportResource>>)
    ensures sent.None? <==> Unprepared(meter, d)
    ensures sent.Some? ==> Prepared(meter, d, sent.value)
    ensures sent == Some([]) <==> meter.read(d) == Some([])
  {
    var resources := meter.read(d);
    if resources.None? || resources.value == [] || !d.aggregate { return resources; }
    var one := Aggregate(resources.value);
    if one.Err? { return None; }
    sent := Some(one.value);
  }

  /** Due reports have distinct keys that fit, none of them filed. */
  lemma DueAreFresh(c: VenConfig, events: Events, anchors: Anchors, reported: set<Key>, at: Timestamp)
    requires forall id :: id in events ==> events[id].id == id && DescriptorsFit(events[id])
    ensures var due := DueReports(c, events, anchors, reported, at);
      KeysDistinct(due) && forall d :: d in due ==> d.key !in reported && Bounded(d.key) && d.key.event in events
  {
    var owed := Owed(c, events, anchors, at);
    OwedInOrder(c, events, anchors, at);
    UnfiledMembers(owed, reported);
    UnfiledDistinct(owed, reported);
  }

  /** The reports of a list that the VTN accepts, in order. */
  ghost function Accepted(due: seq<DueReport>, meter: Meter): (r: seq<DueReport>)
    ensures forall d :: d in r <==> d in due && Acceptable(meter, d)
  {
    if due == [] then []
    else
      var init, last := due[..|due| - 1], due[|due| - 1];
      assert due == init + [last];
      Accepted(init, meter) + if Acceptable(meter, last) then [last] else []
  }

  /** The first `n` due reports were gone through and what was accepted of them filed; the next, if any, failed. */
  ghost predicate CycleEnds(due: seq<DueReport>, n: nat, filed: seq<DueReport>, ok: bool, meter: Meter) {
    && n <= |due|
    && (forall i :: 0 <= i < n ==> !EndsCycle(meter, due[i]))
    && filed == Accepted(due[..n], meter)
    && (ok <==> n == |due|)
    && (n < |due| ==> EndsCycle(meter, due[n]))
  }

  /** The first `i` due reports have been gone through: filed, or declined by the meter. */
  ghost predicate Processed(due: seq<DueReport>, i: nat, filed: seq<DueReport>, meter: Meter)
    requires i <= |due|
  {
    && filed == Accepted(due[..i], meter) && KeysDistinct(filed)
    && (forall j :: 0 <= j < i ==> !EndsCycle(meter, due[j]))
    && (forall d :: d in due[..i] ==> d in filed || meter.read(d) == Some([]))
  }

  lemma AcceptedNext(due: seq<DueReport>, i: nat, meter: Meter)
    requires i < |due|
    ensures Accepted(due[..i + 1], meter)
      == Accepted(due[..i], meter) + if Acceptable(meter, due[i]) then [due[i]] else []
  {
    assert due[..i + 1][..i] == due[..i];
  }

  lemma NotYetFiled(due: seq<DueReport>, i: nat, filed: seq<DueReport>, meter: Meter)
    requires i < |due| && KeysDistinct(due) && Processed(due, i, filed, meter)
    ensures due[i] in due && due[i].key !in KeysOf(filed)
  {
    forall d | d in filed ensures d.key != due[i].key {
      var j :| 0 <= j < i && due[..i][j] == d;
      assert due[j] == d;
    }
  }

  lemma DistinctSnoc(filed: seq<DueReport>, d: DueReport)
    requires KeysDistinct(filed) && d.key !in KeysOf(filed)
    ensures KeysDistinct(filed + [d])
  {
    forall i | 0 <= i < |filed| ensures filed[i].key != d.key {
      assert filed[i] in filed;
    }
  }

  lemma ProcessedNext(due: seq<DueReport>, i: nat, filed: seq<DueReport>, meter: Meter, done: bool)
    requires i < |due| && KeysDistinct(due) && Processed(due, i, filed, meter)
    requires done <==> Acceptable(meter, due[i])
    requires !EndsCycle(meter, due[i]) && (done || meter.read(due[i]) == Some([]))
    ensures Processed(due, i + 1, if done then filed + [due[i]] else filed, meter)
  {
    AcceptedNext(due, i, meter);
    NotYetFiled(due, i, filed, meter);
    DistinctSnoc(filed, due[i]);
    assert due[..i + 1] == due[..i] + [due[i]];
  }

  lemma CycleFails(due: seq<DueReport>, i: nat, filed: seq<DueReport>, meter: Meter)
    requires i < |due| && Processed(due, i, filed, meter) && EndsCycle(meter, due[i])
    ensures CycleEnds(due, i, filed, false, meter)
  {}

  lemma CycleCompletes(due: seq<DueReport>, filed: seq<DueReport>, meter: Meter)
    requires Processed(due, |due|, filed, meter)
    ensures CycleEnds(due, |due|, filed, true, meter)
    ensures forall d :: d in due ==> d in filed || meter.read(d) == Some([])
  {
    assert due[..|due|] == due;
  }

  lemma CycleOkIff(due: seq<DueReport>, n: nat, filed: seq<DueReport>, ok: bool, meter: Meter)
    requires CycleEnds(due, n, filed, ok, meter)
    ensures ok <==> forall d :: d in due ==> !EndsCycle(meter, d)
    ensures forall d :: d in filed ==> d in due && Acceptable(meter, d)
  {
    assert n < |due| ==> due[n] in due;
  }

  lemma FiledMore(memory: set<Key>, history: seq<Step>, filed: seq<DueReport>, d: DueReport)
    ensures memory + KeysOf(filed + [d]) == memory + KeysOf(filed) + {d.key}
    ensures history + FiledSteps(filed + [d]) == history + FiledSteps(filed) + [Filed(d.key)]
  {
    assert KeysOf(filed + [d]) == KeysOf(filed) + {d.key};
    assert FiledSteps(filed + [d]) == FiledSteps(filed) + [Filed(d.key)];
  }

  /** A process restart: a new runtime, the exported state, and nothing else. */
  method Restart(ven: VenRuntime) returns (fresh': VenRuntime)
    requires ven.Valid()
    ensures fresh(fresh') && fresh'.Valid() && fresh'.config == ven.config && fresh'.tag == ven.tag
    ensures fresh'.reported == ven.reported && fresh'.log == ven.log && fresh'.venId == ven.venId
    ensures fresh'.events == map[] && fresh'.eventsEtag == None
  {
    assert Consistent(ven.log, ven.reported);
    var state := ven.ExportedState();
    StateRoundTrip(ven.reported);
    fresh' := new VenRuntime(ven.config, ven.tag);
    fresh'.Restore(state);
    fresh'.log := ven.log;
    assert fresh'.Coherent();
  }
}
