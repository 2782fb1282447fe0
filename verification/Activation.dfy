/**
 The catalog files and the restart marker: the write part of `Fetcher.Refresh`, `atomicWrite`,
 `markPending`, `ClearPending` and `Pending` (`catalog/catalog.go`), and `ApplyWhileQuiesced`
 (`activation/activation.go`). Every way a file operation can end is a parameter of the call.
 */
module Activation {

  import opened AppServer
  import Catalog
  import Text
  import opened Wrappers

  type Bytes = seq<int>

  datatype ActivationError =
    | FetchFailed
    | Undecodable(reason: Catalog.CatalogError)
    | ReadCurrent
    | WriteCatalog
    | WriteMarker
    | NoAppServerHome
    | ListProcesses
    | UnverifiableServers
    | SignalFailed
    | ClearMarker

  /** What stands at the marker path; only a regular file counts as pending. */
  datatype Marker = Absent | Regular | Irregular

  datatype Files = Files(catalog: Option<Bytes>, previous: Option<Bytes>, marker: Marker)

  predicate Pending(f: Files) { f.marker == Regular }

  // ----- Refresh --------------------------------------------------------------------

  /** How `atomicWrite` ends; a failed backup may leave anything in the backup file. */
  datatype Write = NoDirectory | BackupFailed(left: Option<Bytes>) | NotReplaced | Replaced

  /** How writing the marker ends: done, failed with the file created, or failed without it. */
  datatype Mark = Marked | MarkedPartly | NotMarked

  /** One refresh: the entries fetched (none when fetching failed) and what the disk does. */
  datatype Fetched = Fetched(
    entries: Option<seq<Catalog.Entry>>,
    render: seq<Catalog.Entry> -> Bytes,
    readable: bool,
    write: Write,
    mark: Mark)

  /** The bytes a refresh wants on disk, when it gets that far. */
  function Payload(q: Fetched): Option<Bytes> {
    if q.entries.None? then None
    else
      var models := Catalog.Visible(q.entries.value);
      if Catalog.Identified(models) && models != [] then Some(q.render(models)) else None
  }

  /** The refresh puts new bytes on disk. */
  predicate Writes(f: Files, q: Fetched) {
    && Payload(q).Some?
    && (f.catalog.Some? ==> q.readable)
    && f.catalog != Payload(q)
    && q.write.Replaced?
  }

  function AfterWrite(f: Files, payload: Bytes, write: Write): Files {
    match write
    case NoDirectory => f
    case BackupFailed(left) => if f.catalog.Some? then f.(previous := left) else f
    case NotReplaced => if f.catalog.Some? then f.(previous := f.catalog) else f
    case Replaced => Files(Some(payload), if f.catalog.Some? then f.catalog else f.previous, f.marker)
  }

  function AfterMark(marker: Marker, mark: Mark): Marker {
    if marker == Irregular || mark == NotMarked then marker else Regular
  }

  /** The files after a refresh. */
  function RefreshedFiles(f: Files, q: Fetched): Files {
    if Payload(q).None? || (f.catalog.Some? && !q.readable) || f.catalog == Payload(q) then f
    else
      var g := AfterWrite(f, Payload(q).value, q.write);
      if q.write.Replaced? then g.(marker := AfterMark(g.marker, q.mark)) else g
  }

  // ----- Activation -----------------------------------------------------------------

  /** One activation: the configuration, the app-servers found and what the host does. */
  datatype Request = Request(
    manage: bool,
    home: string,
    found: Option<seq<Process>>,
    host: Host,
    cleared: bool)

  datatype Report = Report(pending: bool, restarted: seq<int>, error: Option<ActivationError>)

  /** Every candidate is proven eligible and has been signalled. */
  predicate AllRestarted(q: Request) {
    && q.found.Some?
    && AllEligible(q.found.value, q.home, q.host)
    && AllSignalled(q.found.value, q.host)
  }

  /** This call restarts every candidate with the catalog that is on disk. */
  predicate Activates(f: Files, q: Request) {
    Pending(f) && q.manage && q.home != "" && AllRestarted(q)
  }

  function AppliedFiles(f: Files, q: Request): Files {
    if Activates(f, q) && q.cleared then f.(marker := Absent) else f
  }

  // ----- The files as they are updated ------------------------------------------------

  class Store {
    var catalog: Option<Bytes>
    var previous: Option<Bytes>
    var marker: Marker

    constructor (f: Files)
      ensures View() == f
    {
      catalog, previous, marker := f.catalog, f.previous, f.marker;
    }

    ghost function View(): Files
      reads this
    {
      Files(catalog, previous, marker)
    }

    /** `atomicWrite`. */
    method AtomicWrite(payload: Bytes, write: Write) returns (ok: bool)
      modifies this`catalog, this`previous
      ensures View() == AfterWrite(old(View()), payload, write)
      ensures ok <==> write.Replaced?
    {
      if write.NoDirectory? {
        return false;
      }
      if catalog.Some? {
        if write.BackupFailed? {
          previous := write.left;
          return false;
        }
        previous := catalog;
      }
      if !write.Replaced? {
        return false;
      }
      catalog := Some(payload);
      ok := true;
    }

    /**
     `markPending`: afterwards an activation is pending exactly when it was before, or when the
     path was free and the file could be created; what is no regular file stays so.
     */
    method MarkPending(mark: Mark) returns (ok: bool)
      modifies this`marker
      ensures Pending(View()) <==> Pending(old(View())) || (old(marker) == Absent && mark != NotMarked)
      ensures marker == Irregular <==> old(marker) == Irregular
      ensures ok && !Pending(View()) ==> old(marker) == Irregular
      ensures ok <==> mark == Marked
    {
      match mark
      case NotMarked =>
        ok := false;
      case MarkedPartly =>
        if marker == Absent {
          marker := Regular;
        }
        ok := false;
      case Marked =>
        if marker == Absent {
          marker := Regular;
        }
        ok := true;
    }

    /** `Refresh` from the response on; the result says whether the catalog changed. */
    method Refresh(q: Fetched) returns (r: Result<bool, ActivationError>)
      modifies this
      ensures View() == RefreshedFiles(old(View()), q)
      ensures r == Ok(true) <==> Writes(old(View()), q) && q.mark == Marked
      ensures r == Ok(false) <==> Payload(q).Some? && old(catalog) == Payload(q) && q.readable
    {
      hide Catalog.Identified, Catalog.Visible;
      if q.entries.None? {
        return Err(FetchFailed);
      }
      var filtered := Catalog.FilterVisible(q.entries.value);
      if filtered.Err? {
        return Err(Undecodable(filtered.error));
      }
      var payload := q.render(filtered.value);
      if catalog.Some? && !q.readable {
        return Err(ReadCurrent);
      }
      if catalog == Some(payload) {
        return Ok(false);
      }
      var written := AtomicWrite(payload, q.write);
      if !written {
        return Err(WriteCatalog);
      }
      var marked := MarkPending(q.mark);
      if !marked {
        return Err(WriteMarker);
      }
      r := Ok(true);
    }

    /** `ApplyWhileQuiesced`. */
    method ApplyWhileQuiesced(q: Request) returns (r: Report)
      modifies this`marker
      ensures View() == AppliedFiles(old(View()), q)
      ensures r.pending <==> Pending(old(View())) && !(Activates(old(View()), q) && q.cleared)
      ensures r.error.None? <==> !Pending(old(View())) || !q.manage || (Activates(old(View()), q) && q.cleared)
      ensures Activates(old(View()), q) ==> r.restarted == Pids(q.found.value)
    {
      hide Eligible, Chosen, SignalledPids;
      if marker != Regular {
        return Report(false, [], None);
      }
      if !q.manage {
        return Report(true, [], None);
      }
      if q.home == "" {
        return Report(true, [], Some(NoAppServerHome));
      }
      if q.found.None? {
        return Report(true, [], Some(ListProcesses));
      }
      var selection := SelectForCodexHome(q.found.value, q.home, q.host);
      NoneUnverifiable(q.found.value, q.home, q.host);
      if |selection.unverifiable| > 0 {
        return Report(true, [], Some(UnverifiableServers));
      }
      var restarted: seq<int> := [];
      if |selection.eligible| > 0 {
        var signalled, ok := Restart(selection.eligible, q.host);
        restarted := signalled;
        if !ok {
          return Report(true, restarted, Some(SignalFailed));
        }
      }
      if !q.cleared {
        return Report(true, restarted, Some(ClearMarker));
      }
      marker := Absent;
      r := Report(false, restarted, None);
    }
  }

  // ----- Runs ---------------------------------------------------------------------------

  datatype Event = Refresh(fetched: Fetched) | Apply(request: Request)

  /** The files, and the catalog every app-server was last restarted with. */
  datatype World = World(files: Files, inForce: Option<Bytes>)

  function Step(w: World, e: Event): World {
    match e
    case Refresh(q) => w.(files := RefreshedFiles(w.files, q))
    case Apply(q) => World(AppliedFiles(w.files, q), if Activates(w.files, q) then w.files.catalog else w.inForce)
  }

  function Run(w: World, events: seq<Event>): World
    decreases |events|
  {
    if events == [] then w else Run(Step(w, events[0]), events[1..])
  }

  /** The promise: without a marker the catalog on disk is the one in force. */
  predicate Honest(w: World) {
    !Pending(w.files) ==> w.files.catalog == w.inForce
  }

  /** A refresh that replaces the catalog also leaves a marker that is seen as pending. */
  predicate MarkerFollows(w: World, e: Event) {
    e.Refresh? && Writes(w.files, e.fetched) ==>
        w.files.marker == Regular || (w.files.marker == Absent && e.fetched.mark != NotMarked)
  }

  ghost predicate MarkersFollow(w: World, events: seq<Event>)
    decreases |events|
  {
    events == [] || (MarkerFollows(w, events[0]) && MarkersFollow(Step(w, events[0]), events[1..]))
  }

  /**
   One step keeps the promise exactly when the marker follows a replaced catalog, or the new
   catalog happens to be the one in force.
   */
  lemma {:induction false} StepHonest(w: World, e: Event)
    requires Honest(w)
    ensures Honest(Step(w, e)) <==> MarkerFollows(w, e) || (e.Refresh? && Payload(e.fetched) == w.inForce)
  {
    hide Payload, AllRestarted;
  }

  /** Over every run in which each catalog write is followed by its marker, the promise holds. */
  lemma {:induction false} RunHonest(w: World, events: seq<Event>)
    requires Honest(w) && MarkersFollow(w, events)
    ensures Honest(Run(w, events))
    decreases |events|
  {
    hide Step, Honest, MarkerFollows;
    if events != [] {
      StepHonest(w, events[0]);
      RunHonest(Step(w, events[0]), events[1..]);
    }
  }

  /** The marker goes only in a step where every candidate was proven eligible and signalled. */
  lemma {:induction false} ClearedOnlyByRestart(w: World, e: Event)
    requires Pending(w.files) && !Pending(Step(w, e).files)
    ensures e.Apply? && AllRestarted(e.request) && Step(w, e).inForce == w.files.catalog
    ensures Step(w, e).files.catalog == w.files.catalog
  {
    hide Payload, AllRestarted;
  }

  /** The event brings no bytes other than `payload`. */
  predicate Repeats(e: Event, payload: Option<Bytes>) {
    e.Refresh? ==> Payload(e.fetched) == None || Payload(e.fetched) == payload
  }

  /**
   A marker that was lost is not made up for: while upstream keeps serving the same catalog, no
   number of refreshes and activations restarts anything or brings the marker back.
   */
  lemma {:induction false} LostMarkerIsNeverRepaired(w: World, events: seq<Event>)
    requires !Pending(w.files) && w.files.catalog.Some?
    requires forall i :: 0 <= i < |events| ==> Repeats(events[i], w.files.catalog)
    ensures Run(w, events) == w
    decreases |events|
  {
    hide Payload, AllRestarted;
    if events != [] {
      assert Repeats(events[0], w.files.catalog);
      assert Step(w, events[0]) == w;
      assert forall i :: 0 <= i < |events[1..]| ==> events[1..][i] == events[i + 1];
      LostMarkerIsNeverRepaired(w, events[1..]);
    }
  }

  function OneModel(): Catalog.Entry { Catalog.Entry("", Some("m"), None, "") }

  /** The promise fails when the marker cannot be written, and the failure lasts. */
  lemma {:induction false} LostMarkerExample()
    ensures var q := Fetched(Some([OneModel()]), (ms: seq<Catalog.Entry>) => [1], true, Replaced, NotMarked);
            var w := World(Files(Some([0]), None, Absent), Some([0]));
            Honest(w) && !Honest(Run(w, [Refresh(q)])) &&
                Run(w, [Refresh(q), Refresh(q.(mark := Marked))]) == Run(w, [Refresh(q)])
  {
    var q := Fetched(Some([OneModel()]), (ms: seq<Catalog.Entry>) => [1], true, Replaced, NotMarked);
    var w := World(Files(Some([0]), None, Absent), Some([0]));
    assert Catalog.Visible([OneModel()]) == [OneModel()] && Catalog.ModelId(OneModel()) == "m" by { OneModelVisible(); }
    hide Catalog.Visible, Catalog.ModelId;
    assert Payload(q) == Some([1]);
    var q' := q.(mark := Marked);
    assert Payload(q') == Some([1]);
    assert [Refresh(q)][1..] == [] && [Refresh(q), Refresh(q')][1..] == [Refresh(q')];
    assert [Refresh(q')][1..] == [];
    assert [0] != [1] by { assert [0][0] != [1][0]; }
    assert Step(w, Refresh(q)) == World(Files(Some([1]), Some([0]), Absent), Some([0]));
    assert Run(w, [Refresh(q)]) == Run(Step(w, Refresh(q)), []);
    assert Run(w, [Refresh(q), Refresh(q')]) == Run(Step(w, Refresh(q)), [Refresh(q')]);
    assert Run(Step(w, Refresh(q)), [Refresh(q')]) == Run(Step(Step(w, Refresh(q)), Refresh(q')), []);
  }

  lemma {:induction false} OneModelVisible()
    ensures Catalog.Visible([OneModel()]) == [OneModel()] && Catalog.ModelId(OneModel()) == "m"
  {
    assert [OneModel()][..0] == [];
    Text.TrimIdentity("m");
  }
}
